/** The reference counters across whole store transactions: which of them leave every counter
    exact. Within one of these transactions a counter can only run ahead of its count, so one
    unfair statement is never made good by another. */
module StoreCounters {
  import opened Wrappers
  import opened Sorting
  import opened StoreModel
  import opened StoreInvariants
  import opened LineageAcyclic
  import opened CounterModel
  import opened CounterTheorems

  // ------------------------------------------------------------ counters that run ahead

  ghost predicate AheadAt(s: State, m: Id) {
    && m in s.counters.relLink && m in s.counters.task && m in s.counters.lineage
    && s.counters.relLink[m] >= |RelLinkEdges(s.world, m)|
    && s.counters.task[m] == |TaskEdges(s.world, m)|
    && s.counters.lineage[m] >= |LineageEdges(s.world, m)|
  }

  /** No counter is below its count. */
  ghost predicate Ahead(s: State) {
    WellFormed(s) && forall m {:trigger AheadAt(s, m)} :: m in s.world.status ==> AheadAt(s, m)
  }

  lemma ExactIsAhead(s: State)
    requires WellFormed(s) && Exact(s)
    ensures Ahead(s)
  {
    forall m | m in s.world.status ensures AheadAt(s, m) { assert ExactAt(s, m); }
  }

  lemma NewMemorySets(s: State, id: Id, status: Status, m: Id)
    requires WellFormed(s) && id !in s.world.status
    ensures var w, w' := s.world, AddMemory(s, id, status).world;
            && RelLinkEdges(w', m) == RelLinkEdges(w, m) && TaskEdges(w', m) == TaskEdges(w, m)
            && LineageEdges(w', m) == LineageEdges(w, m)
            && (m == id ==> RelLinkEdges(w, m) == {} && TaskEdges(w, m) == {} && LineageEdges(w, m) == {})
  {
    var w, w' := s.world, AddMemory(s, id, status).world;
    forall q | q in w.relations
      ensures Counts(w', w.relations[q], m) == Counts(w, w.relations[q], m)
      ensures FromTask(w', w.relations[q]) == FromTask(w, w.relations[q])
      ensures CountingSource(w', w.relations[q]) == CountingSource(w, w.relations[q])
    {}
  }

  lemma AddAheadAt(s: State, id: Id, status: Status, m: Id)
    requires WellFormed(s) && id !in s.world.status && (m != id ==> AheadAt(s, m))
    ensures AheadAt(AddMemory(s, id, status), m)
    ensures ExactAt(AddMemory(s, id, status), m) <==> m == id || ExactAt(s, m)
  {
    NewMemorySets(s, id, status, m);
  }

  lemma AddWellFormed(s: State, id: Id, status: Status)
    requires WellFormed(s)
    ensures WellFormed(AddMemory(s, id, status))
  {}

  lemma ExactTogether(s: State, t: State, id: Id)
    requires t.world.status.Keys == s.world.status.Keys + {id} && id !in s.world.status
    requires forall m {:trigger ExactAt(t, m)} {:trigger ExactAt(s, m)} :: m in t.world.status ==>
               (ExactAt(t, m) <==> m == id || ExactAt(s, m))
    ensures Exact(t) <==> Exact(s)
  {
    if Exact(s) { forall m | m in t.world.status ensures ExactAt(t, m) { assert m != id ==> ExactAt(s, m); } }
    if Exact(t) { forall m | m in s.world.status ensures ExactAt(s, m) { assert ExactAt(t, m); } }
  }

  /** A new memory changes nothing. */
  lemma AddAhead(s: State, id: Id, status: Status)
    requires Ahead(s) && id !in s.world.status
    ensures Ahead(AddMemory(s, id, status)) && (Exact(AddMemory(s, id, status)) <==> Exact(s))
  {
    var t := AddMemory(s, id, status);
    AddWellFormed(s, id, status);
    forall m | m in t.world.status
      ensures AheadAt(t, m) && (ExactAt(t, m) <==> m == id || ExactAt(s, m))
    {
      assert m != id ==> AheadAt(s, m);
      AddAheadAt(s, id, status, m);
    }
    ExactTogether(s, t, id);
  }

  /** The row does not count, or its child does. */
  predicate EdgeFair(w: World, e: Edge) {
    !Whitelisted(e.relation) || CountingChild(w, e)
  }

  /** Only a fair lineage row keeps the counters exact; an unfair one puts its parent ahead. */
  lemma LinkAhead(s: State, e: Edge)
    requires Ahead(s) && e !in s.world.lineage && e.parent in s.world.status && e.child in s.world.status
    ensures Ahead(InsertLineage(s, e)) && (Exact(InsertLineage(s, e)) <==> Exact(s) && EdgeFair(s.world, e))
  {
    var t := InsertLineage(s, e);
    InsertLineageWellFormed(s, e);
    forall m | m in s.world.status
      ensures AheadAt(t, m) && (ExactAt(t, m) <==> ExactAt(s, m) && (m != e.parent || EdgeFair(s.world, e)))
    {
      assert AheadAt(s, m);
      InsertedLineageSets(s, e, m);
      Added(LineageEdges(s.world, m), e, m == e.parent && Whitelisted(e.relation) && CountingChild(s.world, e));
    }
    assert ExactAt(t, e.parent) <==> ExactAt(s, e.parent) && EdgeFair(s.world, e);
  }

  /** The memory keeps counting or not counting, or goes from active, or no edge of it counts. */
  ghost predicate FlipFair(w: World, id: Id, after: Status)
    requires id in w.status
  {
    Counting(w.status[id]) == Counting(after) || w.status[id].Active? || NoOutgoing(w, id)
  }

  lemma FlipCountAhead<T>(c: nat, a: set<T>, b: set<T>, before: Status, after: Status)
    requires c >= |a| && if Counting(before) then b <= a else b !! a
    requires Counting(after) ==> Counting(before)
    ensures var moved, count := Moved(c, |b|, before, after), |if Counting(after) then a + b else a - b|;
            && moved >= count
            && (moved == count <==> c == |a| && (Counting(before) == Counting(after) || before.Active? || b == {}))
  {
    if Counting(before) { SplitSize(a, b); assert a + b == a; } else { assert a - b == a; }
    if b != {} { assert |b| > 0; }
  }

  ghost predicate FlipFairAt(w: World, id: Id, after: Status, m: Id)
    requires id in w.status
  {
    Counting(w.status[id]) == Counting(after) || w.status[id].Active? || NoneTo(w, id, m)
  }

  lemma FlipFairEverywhere(w: World, id: Id, after: Status)
    requires id in w.status
    ensures FlipFair(w, id, after) <==> forall m :: m in w.status ==> FlipFairAt(w, id, after, m)
  {}

  /** One memory's counters before and after the flip of another. */
  lemma AheadAfterFlip(s: State, t: State, id: Id, after: Status, m: Id)
    requires id in s.world.status && m in s.world.status && AheadAt(s, m)
             && (Counting(after) ==> Counting(s.world.status[id]))
    requires t.world == s.world.(status := s.world.status[id := after]) && t.counters.task == s.counters.task
    requires m in t.counters.relLink && m in t.counters.lineage
    requires t.counters.relLink[m] ==
             Moved(s.counters.relLink[m], |OutRelations(s.world, id, m)|, s.world.status[id], after)
    requires t.counters.lineage[m] ==
             Moved(s.counters.lineage[m], |OutLineage(s.world, id, m)|, s.world.status[id], after)
    ensures AheadAt(t, m) && (ExactAt(t, m) <==> ExactAt(s, m) && FlipFairAt(s.world, id, after, m))
  {
    var before := s.world.status[id];
    FlippedSets(s, id, after, m);
    FlipCountAhead(s.counters.relLink[m], RelLinkEdges(s.world, m), OutRelations(s.world, id, m), before, after);
    FlipCountAhead(s.counters.lineage[m], LineageEdges(s.world, m), OutLineage(s.world, id, m), before, after);
  }

  lemma FlippedWorld(s: State, id: Id, after: Status)
    requires id in s.world.status
    ensures SetStatus(s, id, after).world == s.world.(status := s.world.status[id := after])
  {}

  /** Only a fair status change keeps the counters exact; an unfair one leaves them ahead. */
  lemma FlipAhead(s: State, id: Id, after: Status)
    requires Ahead(s) && id in s.world.status && (Counting(after) ==> Counting(s.world.status[id]))
    ensures Ahead(SetStatus(s, id, after))
            && (Exact(SetStatus(s, id, after)) <==> Exact(s) && FlipFair(s.world, id, after))
  {
    var t := SetStatus(s, id, after);
    SetStatusWellFormed(s, id, after);
    FlippedWorld(s, id, after);
    FlipFairEverywhere(s.world, id, after);
    forall m | m in s.world.status
      ensures AheadAt(t, m) && (ExactAt(t, m) <==> ExactAt(s, m) && FlipFairAt(s.world, id, after, m))
    {
      assert AheadAt(s, m);
      FlippedCounters(s, id, after, m);
      AheadAfterFlip(s, t, id, after, m);
    }
  }

  // ------------------------------------------------------------ loops of statements

  /** The rows inserted, one after the other. */
  ghost function LinkAll(s: State, edges: seq<Edge>): State
    decreases |edges|
  {
    if edges == [] then s else LinkAll(InsertLineage(s, edges[0]), edges[1..])
  }

  /** Rows the tables accept, each once. */
  ghost predicate Linkable(w: World, edges: seq<Edge>) {
    && Distinct(edges)
    && forall i :: 0 <= i < |edges| ==>
      edges[i] !in w.lineage && edges[i].parent in w.status && edges[i].child in w.status
  }

  ghost predicate EdgesFair(w: World, edges: seq<Edge>) {
    forall e :: e in edges ==> EdgeFair(w, e)
  }

  ghost function EdgeSet(edges: seq<Edge>): set<Edge> {
    set e | e in edges
  }

  lemma {:induction false} LinkAllWorld(s: State, edges: seq<Edge>)
    ensures LinkAll(s, edges).world == s.world.(lineage := s.world.lineage + EdgeSet(edges))
    decreases |edges|
  {
    if edges == [] { assert s.world.lineage + EdgeSet([]) == s.world.lineage; }
    else {
      LinkAllWorld(InsertLineage(s, edges[0]), edges[1..]);
      assert EdgeSet(edges) == {edges[0]} + EdgeSet(edges[1..]);
    }
  }

  lemma {:induction false} LinkAllAhead(s: State, edges: seq<Edge>)
    requires Ahead(s) && Linkable(s.world, edges)
    ensures Ahead(LinkAll(s, edges)) && (Exact(LinkAll(s, edges)) <==> Exact(s) && EdgesFair(s.world, edges))
    decreases |edges|
  {
    if edges != [] {
      var e, rest := edges[0], edges[1..];
      var t := InsertLineage(s, e);
      LinkAhead(s, e);
      LinkAllAhead(t, rest);
      forall x ensures EdgeFair(t.world, x) == EdgeFair(s.world, x) {}
      assert edges == [e] + rest;
    }
  }

  /** The memories given the status, one after the other. */
  ghost function FlipAll(s: State, ids: seq<Id>, after: Status): State
    requires forall i :: 0 <= i < |ids| ==> ids[i] in s.world.status
    decreases |ids|
  {
    if ids == [] then s else FlipAll(SetStatus(s, ids[0], after), ids[1..], after)
  }

  ghost predicate FlipsFair(w: World, ids: seq<Id>, after: Status)
    requires forall i :: 0 <= i < |ids| ==> ids[i] in w.status
  {
    forall i :: 0 <= i < |ids| ==> FlipFair(w, ids[i], after)
  }

  /** Two states of the tables in which the memory has the same status and outgoing edges. */
  ghost predicate SameOutgoing(w: World, w': World, id: Id) {
    && w'.nodes == w.nodes && w'.relations == w.relations && w.status.Keys <= w'.status.Keys
    && id in w.status && w'.status[id] == w.status[id]
    && forall e: Edge :: e.child == id ==> (e in w'.lineage <==> e in w.lineage)
  }

  lemma SameNone(s: State, w': World, id: Id, m: Id)
    requires WellFormed(s) && SameOutgoing(s.world, w', id)
    ensures NoneTo(w', id, m) <==> NoneTo(s.world, id, m)
    ensures m !in s.world.status ==> NoneTo(s.world, id, m)
  {
    var w := s.world;
    forall q | q in w.relations ensures Counts(w', w.relations[q], m) == Counts(w, w.relations[q], m) {}
    assert OutRelations(w', id, m) == OutRelations(w, id, m);
    assert OutLineage(w', id, m) == OutLineage(w, id, m);
  }

  lemma SameFair(s: State, w': World, id: Id, after: Status)
    requires WellFormed(s) && SameOutgoing(s.world, w', id)
    ensures FlipFair(w', id, after) <==> FlipFair(s.world, id, after)
  {
    forall m ensures NoneTo(w', id, m) <==> NoneTo(s.world, id, m) { SameNone(s, w', id, m); }
    forall m | m !in s.world.status ensures NoneTo(s.world, id, m) { SameNone(s, w', id, m); }
    assert NoOutgoing(w', id) <==> NoOutgoing(s.world, id);
  }

  /** Only the statuses of the listed memories differ. */
  ghost predicate OnlyFlipped(w: World, w': World, ids: set<Id>, after: Status) {
    && w' == w.(status := w'.status) && w'.status.Keys == w.status.Keys
    && forall id :: id in w.status ==> w'.status[id] == if id in ids then after else w.status[id]
  }

  lemma {:induction false} FlipAllWorld(s: State, ids: seq<Id>, after: Status)
    requires forall i :: 0 <= i < |ids| ==> ids[i] in s.world.status
    ensures OnlyFlipped(s.world, FlipAll(s, ids, after).world, IdSet(ids), after)
    decreases |ids|
  {
    if ids != [] {
      FlippedWorld(s, ids[0], after);
      FlipAllWorld(SetStatus(s, ids[0], after), ids[1..], after);
      assert IdSet(ids) == {ids[0]} + IdSet(ids[1..]);
    }
  }

  /** Whether the others are fair does not depend on the one changed first. */
  lemma OthersFair(s: State, ids: seq<Id>, after: Status)
    requires WellFormed(s) && ids != [] && Distinct(ids) && forall i :: 0 <= i < |ids| ==> ids[i] in s.world.status
    ensures FlipsFair(s.world, ids, after) <==>
            FlipFair(s.world, ids[0], after) && FlipsFair(SetStatus(s, ids[0], after).world, ids[1..], after)
  {
    FlippedWorld(s, ids[0], after);
    var w' := SetStatus(s, ids[0], after).world;
    forall i | 1 <= i < |ids| ensures FlipFair(w', ids[i], after) <==> FlipFair(s.world, ids[i], after) {
      SameFair(s, w', ids[i], after);
    }
    assert forall i :: 1 <= i < |ids| ==> ids[i] == ids[1..][i - 1];
  }

  lemma {:induction false} FlipAllAhead(s: State, ids: seq<Id>, after: Status)
    requires Ahead(s) && Distinct(ids) && !Counting(after) && forall i :: 0 <= i < |ids| ==> ids[i] in s.world.status
    ensures Ahead(FlipAll(s, ids, after))
            && (Exact(FlipAll(s, ids, after)) <==> Exact(s) && FlipsFair(s.world, ids, after))
    decreases |ids|
  {
    if ids != [] {
      FlipAhead(s, ids[0], after);
      OthersFair(s, ids, after);
      FlipAllAhead(SetStatus(s, ids[0], after), ids[1..], after);
    }
  }

  /** The children inserted, each with its lineage row. */
  ghost function ChildrenAll(s: State, source: Id, r: Relation, ids: seq<Id>): State
    decreases |ids|
  {
    if ids == [] then s else ChildrenAll(ChildAdded(s, source, r, ids[0]), source, r, ids[1..])
  }

  ghost function ChildAdded(s: State, source: Id, r: Relation, id: Id): State {
    InsertLineage(AddMemory(s, id, Active), Edge(source, id, r))
  }

  /** What the children are to the tables. */
  ghost predicate ChildrenAdded(w: World, w': World, source: Id, r: Relation, ids: set<Id>) {
    && w'.nodes == w.nodes && w'.relations == w.relations && w'.status.Keys == w.status.Keys + ids
    && (forall id :: id in w.status ==> w'.status[id] == if id in ids then Active else w.status[id])
    && (forall id :: id in ids ==> w'.status[id] == Active)
    && w'.lineage == w.lineage + set id | id in ids :: Edge(source, id, r)
  }

  lemma {:induction false} ChildrenAllWorld(s: State, source: Id, r: Relation, ids: seq<Id>)
    ensures ChildrenAdded(s.world, ChildrenAll(s, source, r, ids).world, source, r, IdSet(ids))
    decreases |ids|
  {
    if ids != [] {
      var t := ChildAdded(s, source, r, ids[0]);
      ChildrenAllWorld(t, source, r, ids[1..]);
      assert IdSet(ids) == {ids[0]} + IdSet(ids[1..]);
    }
  }

  lemma ChildNext(t: State, source: Id, r: Relation, id: Id)
    requires Ahead(t) && source in t.world.status && id !in t.world.status
    ensures var u := ChildAdded(t, source, r, id);
            Ahead(u) && (Exact(u) <==> Exact(t)) && u.world.status == t.world.status[id := Active]
  {
    AddAhead(t, id, Active);
    var u := AddMemory(t, id, Active);
    assert Edge(source, id, r) !in u.world.lineage && EdgeFair(u.world, Edge(source, id, r));
    LinkAhead(u, Edge(source, id, r));
  }

  lemma {:induction false} ChildrenAllAhead(s: State, source: Id, r: Relation, ids: seq<Id>)
    requires Ahead(s) && Distinct(ids) && source in s.world.status && forall i :: 0 <= i < |ids| ==>
               ids[i] !in s.world.status
    ensures Ahead(ChildrenAll(s, source, r, ids)) && (Exact(ChildrenAll(s, source, r, ids)) <==> Exact(s))
    decreases |ids|
  {
    if ids != [] {
      ChildNext(s, source, r, ids[0]);
      ChildrenAllAhead(ChildAdded(s, source, r, ids[0]), source, r, ids[1..]);
    }
  }

  // ------------------------------------------------------------ what each transaction does

  /** The triggers see the statuses and lineage of the store. */
  ghost predicate Mirrors(w: World, db: Db) {
    && w.lineage == db.lineage && w.status.Keys == db.memories.Keys
    && forall id :: id in db.memories ==> w.status[id] == db.memories[id].status
  }

  /** Mirrored afterwards, and exact just in case the condition holds. */
  ghost predicate Outcome(t: State, db: Db, fair: bool) {
    Mirrors(t.world, db) && WellFormed(t) && (Exact(t) <==> fair)
  }

  lemma WriteCounters(s: State, db: Db, req: WriteRequest, id: Id, now: int)
    requires Ahead(s) && Exact(s) && Mirrors(s.world, db) && Inv(db) && ApplyWrite(db, req, id, now).Ok?
    ensures Outcome(AddMemory(s, id, Active), ApplyWrite(db, req, id, now).value, true)
  {
    AddAhead(s, id, Active);
  }

  lemma UpdateCounters(s: State, db: Db, id: Id, p: Patch, now: int)
    requires Ahead(s) && Exact(s) && Mirrors(s.world, db) && ApplyUpdate(db, id, p, now).Ok?
    ensures var after := PatchedRow(db.memories[id], p, now).status;
            Outcome(SetStatus(s, id, after), ApplyUpdate(db, id, p, now).value, FlipFair(s.world, id, after))
  {
    var after := PatchedRow(db.memories[id], p, now).status;
    FlipAhead(s, id, after);
    FlippedWorld(s, id, after);
    EditedMirrors(s.world, db, id, PatchedRow(db.memories[id], p, now));
  }

  lemma StatusFair(s: State, t: State, id: Id, after: Status)
    requires WellFormed(s) && Ahead(t) && SameOutgoing(s.world, t.world, id) && !Counting(after)
    ensures Ahead(SetStatus(t, id, after))
            && (Exact(SetStatus(t, id, after)) <==> Exact(t) && FlipFair(s.world, id, after))
  {
    FlipAhead(t, id, after);
    SameFair(s, t.world, id, after);
  }

  ghost function AfterSupersede(s: State, oldId: Id, newId: Id): State
    requires oldId in s.world.status
  {
    InsertLineage(SetStatus(AddMemory(s, newId, Active), oldId, Superseded), Edge(oldId, newId, Supersedes))
  }

  lemma SupersedeExactness(s: State, oldId: Id, newId: Id)
    requires Ahead(s) && oldId in s.world.status && newId !in s.world.status
    ensures var t := AfterSupersede(s, oldId, newId);
            && Ahead(t) && (Exact(t) <==> Exact(s) && FlipFair(s.world, oldId, Superseded))
            && t.world == s.world.(status := s.world.status[newId := Active][oldId := Superseded],
                                   lineage := s.world.lineage + {Edge(oldId, newId, Supersedes)})
  {
    var t := AddMemory(s, newId, Active);
    AddAhead(s, newId, Active);
    StatusFair(s, t, oldId, Superseded);
    FlippedWorld(t, oldId, Superseded);
    LinkAhead(SetStatus(t, oldId, Superseded), Edge(oldId, newId, Supersedes));
  }

  lemma SupersedeMirrors(w: World, db: Db, oldId: Id, req: SupersedeRequest, newId: Id, now: int)
    requires Mirrors(w, db) && oldId in db.memories && newId !in db.memories
    ensures Mirrors(w.(status := w.status[newId := Active][oldId := Superseded],
                       lineage := w.lineage + {Edge(oldId, newId, Supersedes)}),
                    Superseding(db, oldId, req, newId, now))
  {}

  lemma SupersedeCounters(s: State, db: Db, oldId: Id, req: SupersedeRequest, newId: Id, now: int)
    requires Ahead(s) && Exact(s) && Mirrors(s.world, db) && Inv(db) && ApplySupersede(db, oldId, req, newId, now).Ok?
    ensures Outcome(AfterSupersede(s, oldId, newId), ApplySupersede(db, oldId, req, newId, now).value,
                    FlipFair(s.world, oldId, Superseded))
  {
    SupersedeExactness(s, oldId, newId);
    SupersedeMirrors(s.world, db, oldId, req, newId, now);
  }

  /** The lineage rows of a compose, in lock order. */
  ghost function EdgesTo(ids: seq<Id>, newId: Id, r: Relation): (edges: seq<Edge>)
    ensures |edges| == |ids| && forall i :: 0 <= i < |ids| ==> edges[i] == Edge(ids[i], newId, r)
  {
    seq(|ids|, i requires 0 <= i < |ids| => Edge(ids[i], newId, r))
  }

  ghost function Linked(s: State, locked: seq<Id>, newId: Id, r: Relation): State {
    LinkAll(AddMemory(s, newId, Active), EdgesTo(locked, newId, r))
  }

  lemma EdgesToSet(locked: seq<Id>, newId: Id, mode: ComposeMode)
    ensures EdgeSet(EdgesTo(locked, newId, ComposeRelation(mode))) == ComposeEdges(IdSet(locked), newId, mode)
  {
    var edges := EdgesTo(locked, newId, ComposeRelation(mode));
    forall e ensures e in edges <==> e in ComposeEdges(IdSet(locked), newId, mode) {
      if e in ComposeEdges(IdSet(locked), newId, mode) {
        var i :| 0 <= i < |locked| && locked[i] == e.parent;
        assert edges[i] == e;
      }
    }
  }

  lemma LinkedWorld(s: State, locked: seq<Id>, newId: Id, mode: ComposeMode)
    ensures Linked(s, locked, newId, ComposeRelation(mode)).world ==
            s.world.(status := s.world.status[newId := Active],
                     lineage := s.world.lineage + ComposeEdges(IdSet(locked), newId, mode))
  {
    LinkAllWorld(AddMemory(s, newId, Active), EdgesTo(locked, newId, ComposeRelation(mode)));
    EdgesToSet(locked, newId, mode);
  }

  /** A new memory with lineage to it keeps the counters exact. */
  lemma LinkedCounters(s: State, locked: seq<Id>, newId: Id, mode: ComposeMode)
    requires Ahead(s) && newId !in s.world.status && Distinct(locked) && forall i :: 0 <= i < |locked| ==>
               locked[i] in s.world.status
    ensures var t := Linked(s, locked, newId, ComposeRelation(mode)); Ahead(t) && (Exact(t) <==> Exact(s))
  {
    var t, edges := AddMemory(s, newId, Active), EdgesTo(locked, newId, ComposeRelation(mode));
    AddAhead(s, newId, Active);
    assert Linkable(t.world, edges);
    assert EdgesFair(t.world, edges);
    LinkAllAhead(t, edges);
  }

  ghost function AfterCompose(s: State, locked: seq<Id>, newId: Id, mode: ComposeMode): State
    requires forall i :: 0 <= i < |locked| ==> locked[i] in s.world.status
  {
    LinkedWorld(s, locked, newId, mode);
    var t := Linked(s, locked, newId, ComposeRelation(mode));
    if mode.Merge? then FlipAll(t, locked, Superseded) else t
  }

  ghost predicate ComposeFair(w: World, locked: seq<Id>, mode: ComposeMode)
    requires forall i :: 0 <= i < |locked| ==> locked[i] in w.status
  {
    mode.Merge? ==> FlipsFair(w, locked, Superseded)
  }

  lemma SourcesFair(s: State, w': World, locked: seq<Id>)
    requires WellFormed(s) && forall i :: 0 <= i < |locked| ==> locked[i] in s.world.status && locked[i] in w'.status
    requires forall i :: 0 <= i < |locked| ==> SameOutgoing(s.world, w', locked[i])
    ensures FlipsFair(w', locked, Superseded) <==> FlipsFair(s.world, locked, Superseded)
  {
    forall i | 0 <= i < |locked|
      ensures FlipFair(w', locked[i], Superseded) <==> FlipFair(s.world, locked[i], Superseded)
    {
      SameFair(s, w', locked[i], Superseded);
    }
  }

  lemma ComposeExactness(s: State, locked: seq<Id>, newId: Id, mode: ComposeMode)
    requires Ahead(s) && newId !in s.world.status && Distinct(locked) && forall i :: 0 <= i < |locked| ==>
               locked[i] in s.world.status
    ensures var t := AfterCompose(s, locked, newId, mode);
            Ahead(t) && (Exact(t) <==> Exact(s) && ComposeFair(s.world, locked, mode))
  {
    LinkedCounters(s, locked, newId, mode);
    LinkedWorld(s, locked, newId, mode);
    var t := Linked(s, locked, newId, ComposeRelation(mode));
    if mode.Merge? {
      SourcesFair(s, t.world, locked);
      FlipAllAhead(t, locked, Superseded);
    }
  }

  lemma {:induction false} SupersededStatuses(db: Db, ids: seq<Id>, newId: Id, now: int, n: nat)
    requires n <= |ids| && forall i :: 0 <= i < |ids| ==> ids[i] in db.memories
    ensures var d := WithSuperseded(db, ids, newId, now, n);
            forall id :: id in db.memories ==> d.memories[id].status == if id in ids[..n] then Superseded
              else db.memories[id].status
  {
    if n > 0 {
      SupersededStatuses(db, ids, newId, now, n - 1);
      assert ids[..n] == ids[..n - 1] + [ids[n - 1]];
      var d := WithSuperseded(db, ids, newId, now, n - 1);
      assert WithSuperseded(db, ids, newId, now, n).memories ==
        d.memories[ids[n - 1] := SupersededRow(d.memories[ids[n - 1]], newId, now)];
    }
  }

  lemma FlipMirrors(t: State, d: Db, ids: seq<Id>, newId: Id, now: int)
    requires Mirrors(t.world, d) && forall i :: 0 <= i < |ids| ==> ids[i] in d.memories
    ensures forall i :: 0 <= i < |ids| ==> ids[i] in t.world.status
    ensures Mirrors(FlipAll(t, ids, Superseded).world, WithSuperseded(d, ids, newId, now, |ids|))
  {
    SupersededStatuses(d, ids, newId, now, |ids|);
    SupersededKeepLineage(d, ids, newId, now, |ids|);
    assert ids[..|ids|] == ids;
    FlipAllWorld(t, ids, Superseded);
  }

  lemma InsertedMirrors(w: World, db: Db, id: Id, row: Row, edges: set<Edge>)
    requires Mirrors(w, db) && row.status.Active?
    ensures var d := Inserted(db, id, row);
            Mirrors(w.(status := w.status[id := Active], lineage := w.lineage + edges),
                    d.(lineage := d.lineage + edges))
  {}

  lemma EditedMirrors(w: World, db: Db, id: Id, row: Row)
    requires Mirrors(w, db) && id in db.memories
    ensures Mirrors(w.(status := w.status[id := row.status]), Edited(db, id, row))
  {}

  lemma ComposeMirrors(s: State, db: Db, req: ComposeRequest, locked: seq<Id>, newId: Id, now: int)
    requires Ahead(s) && Mirrors(s.world, db) && newId !in db.memories && Distinct(locked) && |locked| > 0
    requires forall i :: 0 <= i < |locked| ==> locked[i] in db.memories
    ensures Mirrors(AfterCompose(s, locked, newId, req.mode).world, Composed(db, req, locked, newId, now))
  {
    LinkedWorld(s, locked, newId, req.mode);
    var env := db.memories[locked[0]].env;
    var row := NewRow(env, req.target, req.salience, EffectiveTags(db, req), Some(req.key), now, db.clock);
    var d := Inserted(db, newId, row);
    var edges := ComposeEdges(IdSet(locked), newId, req.mode);
    InsertedMirrors(s.world, db, newId, row, edges);
    if req.mode.Merge? {
      FlipMirrors(Linked(s, locked, newId, ComposeRelation(req.mode)), d.(lineage := d.lineage + edges), locked, newId,
                  now);
    }
  }

  /** Whether the request finds its dedupe key in use. */
  ghost predicate ComposeHit(db: Db, req: ComposeRequest) {
    && (forall i :: 0 <= i < |req.sources| ==> req.sources[i] in db.memories) && |req.sources| > 0
    && SortIds(req.sources)[0] in db.memories
    && exists id :: IsComposed(db, db.memories[SortIds(req.sources)[0]].env, req.key, id)
  }

  lemma ComposeCounters(s: State, db: Db, req: ComposeRequest, newId: Id, now: int)
    requires Ahead(s) && Exact(s) && Mirrors(s.world, db) && Inv(db) && ApplyCompose(db, req, newId, now).Ok?
             && !ComposeHit(db, req)
    ensures var locked := SortIds(req.sources);
            && (forall i :: 0 <= i < |locked| ==> locked[i] in s.world.status)
            && Outcome(AfterCompose(s, locked, newId, req.mode), ApplyCompose(db, req, newId, now).value.0,
                       ComposeFair(s.world, locked, req.mode))
  {
    var locked := SortIds(req.sources);
    FirstOfCompose(db, req, newId, now);
    ComposeExactness(s, locked, newId, req.mode);
    ComposeMirrors(s, db, req, locked, newId, now);
  }

  lemma FirstOfCompose(db: Db, req: ComposeRequest, newId: Id, now: int)
    requires Inv(db) && ApplyCompose(db, req, newId, now).Ok? && !ComposeHit(db, req)
    ensures var locked := SortIds(req.sources);
            && |locked| > 0 && Distinct(locked) && (forall i :: 0 <= i < |locked| ==> locked[i] in db.memories)
            && newId !in db.memories
            && ApplyCompose(db, req, newId, now).value.0 == Composed(db, req, locked, newId, now)
  {
    var locked := SortIds(req.sources);
    DistinctIgnoresOrder(req.sources, locked);
    SameElements(req.sources, locked);
    forall i | 0 <= i < |req.sources| ensures req.sources[i] in db.memories { assert req.sources[i] in locked; }
  }

  ghost function AfterDecompose(s: State, source: Id, mode: DecomposeMode, ids: seq<Id>): State
    requires source in s.world.status
  {
    ChildrenAllWorld(s, source, DecomposeRelation(mode), ids);
    var t := ChildrenAll(s, source, DecomposeRelation(mode), ids);
    if mode.Split? then SetStatus(t, source, Retired) else t
  }

  lemma DecomposeExactness(s: State, source: Id, mode: DecomposeMode, ids: seq<Id>)
    requires Ahead(s) && Distinct(ids) && source in s.world.status && forall i :: 0 <= i < |ids| ==>
               ids[i] !in s.world.status
    ensures var t := AfterDecompose(s, source, mode, ids);
            Ahead(t) && (Exact(t) <==> Exact(s) && (mode.Split? ==> FlipFair(s.world, source, Retired)))
  {
    var r := DecomposeRelation(mode);
    ChildrenAllAhead(s, source, r, ids);
    ChildrenAllWorld(s, source, r, ids);
    if mode.Split? { StatusFair(s, ChildrenAll(s, source, r, ids), source, Retired); }
  }

  /** The rows of the children, as the triggers see them. */
  ghost predicate ChildrenRows(db: Db, d: Db, source: Id, r: Relation, ids: set<Id>) {
    && d.memories.Keys == db.memories.Keys + ids
    && (forall id :: id in db.memories ==> d.memories[id].status == if id in ids then Active
        else db.memories[id].status)
    && (forall id :: id in ids ==> d.memories[id].status == Active)
    && d.lineage == db.lineage + set id | id in ids :: Edge(source, id, r)
  }

  lemma {:induction false} ChildrenStatuses(db: Db, req: DecomposeRequest, env: Env, ids: seq<Id>, now: int, n: nat)
    requires n <= |ids| == |req.children|
    ensures ChildrenRows(db, WithChildren(db, req, env, ids, now, n), req.source, DecomposeRelation(req.mode),
                         IdSet(ids[..n]))
  {
    if n > 0 {
      ChildrenStatuses(db, req, env, ids, now, n - 1);
      assert ids[..n] == ids[..n - 1] + [ids[n - 1]];
      assert IdSet(ids[..n]) == IdSet(ids[..n - 1]) + {ids[n - 1]};
    }
  }

  lemma ChildrenMirror(w: World, w': World, db: Db, d: Db, source: Id, r: Relation, ids: set<Id>)
    requires Mirrors(w, db) && ChildrenAdded(w, w', source, r, ids) && ChildrenRows(db, d, source, r, ids)
    ensures Mirrors(w', d)
  {}

  lemma DecomposeMirrors(s: State, db: Db, req: DecomposeRequest, env: Env, opId: Id, ids: seq<Id>, now: int)
    requires Mirrors(s.world, db) && |ids| == |req.children| && req.source in db.memories
    ensures Mirrors(AfterDecompose(s, req.source, req.mode, ids).world, Decomposed(db, req, env, opId, ids, now))
  {
    var r := DecomposeRelation(req.mode);
    var t, d := ChildrenAll(s, req.source, r, ids), WithChildren(db, req, env, ids, now, |ids|);
    ChildrenAllWorld(s, req.source, r, ids);
    ChildrenStatuses(db, req, env, ids, now, |ids|);
    assert ids[..|ids|] == ids;
    ChildrenMirror(s.world, t.world, db, d, req.source, r, IdSet(ids));
    var d' := d.(operations :=
                   d.operations[OpKey(env, req.key) := Operation(opId, req.source, req.mode, req.fingerprint, ids)]);
    if req.mode.Split? {
      FlippedWorld(t, req.source, Retired);
      EditedMirrors(t.world, d', req.source, RetiredRow(db.memories[req.source], now));
    }
  }

  lemma DecomposeCounters(s: State, db: Db, req: DecomposeRequest, opId: Id, ids: seq<Id>, now: int)
    requires Ahead(s) && Exact(s) && Mirrors(s.world, db) && Inv(db) && ApplyDecompose(db, req, opId, ids, now).Ok?
    requires OpKey(db.memories[req.source].env, req.key) !in db.operations
    ensures Outcome(AfterDecompose(s, req.source, req.mode, ids), ApplyDecompose(db, req, opId, ids, now).value.0,
                    req.mode.Split? ==> FlipFair(s.world, req.source, Retired))
  {
    DecomposeExactness(s, req.source, req.mode, ids);
    DecomposeMirrors(s, db, req, db.memories[req.source].env, opId, ids, now);
  }

  /** No counted lineage row leads from the source to a child that does not count. */
  ghost predicate CopyFair(w: World, req: CopyRequest) {
    req.copyLineage ==> forall e :: e in w.lineage && e.parent == req.source ==> EdgeFair(w, e)
  }

  /** The lineage rows of a copy, in some order. */
  ghost predicate CopyOrder(db: Db, req: CopyRequest, newId: Id, order: seq<Edge>) {
    Distinct(order) && EdgeSet(order) == CopyEdges(db, req, newId)
  }

  ghost function AfterCopy(s: State, newId: Id, order: seq<Edge>): State {
    LinkAll(AddMemory(s, newId, Active), order)
  }

  lemma CopyLinkable(s: State, db: Db, req: CopyRequest, newId: Id, order: seq<Edge>)
    requires Mirrors(s.world, db) && References(db) && newId !in db.memories && req.source in db.memories
             && CopyOrder(db, req, newId, order)
    ensures Linkable(AddMemory(s, newId, Active).world, order)
  {
    var w := AddMemory(s, newId, Active).world;
    forall i | 0 <= i < |order|
      ensures order[i] !in w.lineage && order[i].parent in w.status && order[i].child in w.status
    {
      assert order[i] in EdgeSet(order);
      assert order[i] in CopyEdges(db, req, newId);
    }
  }

  lemma CopyEdgesFair(s: State, db: Db, req: CopyRequest, newId: Id, order: seq<Edge>)
    requires Mirrors(s.world, db) && References(db) && newId !in db.memories && req.source in db.memories
             && CopyOrder(db, req, newId, order)
    ensures EdgesFair(AddMemory(s, newId, Active).world, order) <==> CopyFair(s.world, req)
  {
    var w := AddMemory(s, newId, Active).world;
    if CopyFair(s.world, req) {
      forall e | e in order ensures EdgeFair(w, e) {
        assert e in EdgeSet(order);
        if e != Edge(req.source, newId, CopiedFrom) {
          var was :| was in db.lineage && (was.parent == req.source || was.child == req.source)
            && e == Renamed(was, req.source, newId);
          assert was.parent == req.source ==> EdgeFair(s.world, was);
        }
      }
    }
    if EdgesFair(w, order) && req.copyLineage {
      forall e | e in s.world.lineage && e.parent == req.source ensures EdgeFair(s.world, e) {
        assert Renamed(e, req.source, newId) in CopyEdges(db, req, newId);
        assert Renamed(e, req.source, newId) in EdgeSet(order);
        assert e.child != newId && e.child != req.source;
      }
    }
  }

  lemma CopyExactness(s: State, db: Db, req: CopyRequest, newId: Id, order: seq<Edge>)
    requires Ahead(s) && Mirrors(s.world, db) && References(db) && newId !in db.memories && req.source in db.memories
    requires CopyOrder(db, req, newId, order)
    ensures var t := AfterCopy(s, newId, order);
            && Ahead(t) && (Exact(t) <==> Exact(s) && CopyFair(s.world, req))
            && t.world == s.world.(status := s.world.status[newId := Active],
                                   lineage := s.world.lineage + CopyEdges(db, req, newId))
  {
    AddAhead(s, newId, Active);
    CopyLinkable(s, db, req, newId, order);
    CopyEdgesFair(s, db, req, newId, order);
    LinkAllAhead(AddMemory(s, newId, Active), order);
    LinkAllWorld(AddMemory(s, newId, Active), order);
  }

  lemma CopyCounters(s: State, db: Db, req: CopyRequest, newId: Id, now: int, order: seq<Edge>)
    requires Ahead(s) && Exact(s) && Mirrors(s.world, db) && Inv(db) && ApplyCopy(db, req, newId, now).Ok?
             && CopyOrder(db, req, newId, order)
    ensures Outcome(AfterCopy(s, newId, order), ApplyCopy(db, req, newId, now).value, CopyFair(s.world, req))
  {
    CopyExactness(s, db, req, newId, order);
    InsertedMirrors(s.world, db, newId, CopyOf(db.memories[req.source], req, now, db.clock), CopyEdges(db, req, newId));
  }

  ghost function AfterMove(s: State, source: Id, newId: Id, order: seq<Edge>): State
    requires source in s.world.status
  {
    LinkAllWorld(AddMemory(s, newId, Active), order);
    SetStatus(AfterCopy(s, newId, order), source, Superseded)
  }

  /** A copy leaves the outgoing edges of its source as they were. */
  lemma CopySameOutgoing(s: State, db: Db, req: CopyRequest, newId: Id, t: State)
    requires Mirrors(s.world, db) && References(db) && newId !in db.memories && req.source in db.memories
    requires t.world ==
             s.world.(status := s.world.status[newId := Active], lineage := s.world.lineage + CopyEdges(db, req, newId))
    ensures SameOutgoing(s.world, t.world, req.source)
  {
    forall e: Edge | e.child == req.source ensures e in t.world.lineage <==> e in s.world.lineage {
      assert e !in CopyEdges(db, req, newId);
    }
  }

  lemma MoveExactness(s: State, db: Db, req: CopyRequest, newId: Id, order: seq<Edge>)
    requires Ahead(s) && Mirrors(s.world, db) && References(db) && newId !in db.memories && req.source in db.memories
    requires CopyOrder(db, req, newId, order)
    ensures var t := AfterMove(s, req.source, newId, order);
            Ahead(t) && (Exact(t) <==> Exact(s) && CopyFair(s.world, req) && FlipFair(s.world, req.source, Superseded))
  {
    CopyExactness(s, db, req, newId, order);
    CopySameOutgoing(s, db, req, newId, AfterCopy(s, newId, order));
    StatusFair(s, AfterCopy(s, newId, order), req.source, Superseded);
  }

  lemma MoveCounters(s: State, db: Db, req: CopyRequest, newId: Id, now: int, order: seq<Edge>)
    requires Ahead(s) && Exact(s) && Mirrors(s.world, db) && Inv(db) && ApplyMove(db, req, true, false, newId, now).Ok?
    requires CopyOrder(db, req, newId, order)
    ensures Outcome(AfterMove(s, req.source, newId, order), ApplyMove(db, req, true, false, newId, now).value,
                    CopyFair(s.world, req) && FlipFair(s.world, req.source, Superseded))
  {
    MoveExactness(s, db, req, newId, order);
    CopyCounters(s, db, req, newId, now, order);
    var t, d := AfterCopy(s, newId, order), ApplyCopy(db, req, newId, now).value;
    FlippedWorld(t, req.source, Superseded);
    EditedMirrors(t.world, d, req.source, SupersededRow(db.memories[req.source], newId, now));
  }

  // ------------------------------------------------------------ all of them

  /** The tables and counters after a transaction that deletes nothing; `order` is that in which a
      copy's lineage rows are inserted. */
  ghost function Triggered(s: State, db: Db, tx: Tx, order: seq<Edge>): State
    requires Mirrors(s.world, db)
  {
    if Apply(db, tx).Err? then s
    else
      match tx
      case TxWrite(_, id, _) => AddMemory(s, id, Active)
      case TxUpdate(id, p, now) => SetStatus(s, id, PatchedRow(db.memories[id], p, now).status)
      case TxSupersede(oldId, _, newId, _) => AfterSupersede(s, oldId, newId)
      case TxCompose(req, newId, _) =>
        if ComposeHit(db, req) then s else AfterCompose(s, SortIds(req.sources), newId, req.mode)
      case TxDecompose(req, _, ids, _) =>
        if OpKey(db.memories[req.source].env, req.key) in db.operations then s
          else AfterDecompose(s, req.source, req.mode, ids)
      case TxCopy(req, newId, _) => AfterCopy(s, newId, order)
      case TxMove(req, _, _, newId, _) => AfterMove(s, req.source, newId, order)
      case _ => s
  }

  /** Which committed transactions are fair to the counters. */
  ghost predicate KeepsCounters(w: World, db: Db, tx: Tx)
    requires Mirrors(w, db)
  {
    Apply(db, tx).Ok? ==>
      match tx
      case TxUpdate(id, p, now) => FlipFair(w, id, PatchedRow(db.memories[id], p, now).status)
      case TxSupersede(oldId, _, _, _) => FlipFair(w, oldId, Superseded)
      case TxCompose(req, _, _) => ComposeHit(db, req) || ComposeFair(w, SortIds(req.sources), req.mode)
      case TxDecompose(req, _, _, _) =>
        OpKey(db.memories[req.source].env, req.key) in db.operations
          || (req.mode.Split? ==> FlipFair(w, req.source, Retired))
      case TxCopy(req, _, _) => CopyFair(w, req)
      case TxMove(req, _, _, _, _) => CopyFair(w, req) && FlipFair(w, req.source, Superseded)
      case _ => true
  }

  lemma HitChangesNothing(db: Db, req: ComposeRequest, newId: Id, now: int)
    requires ApplyCompose(db, req, newId, now).Ok? && ComposeHit(db, req)
    ensures ApplyCompose(db, req, newId, now).value.0 == db
  {}

  lemma NothingTriggered(s: State, db: Db, d: Db)
    requires WellFormed(s) && Exact(s) && Mirrors(s.world, db) && d.lineage == db.lineage
             && d.memories.Keys == db.memories.Keys
    requires forall id :: id in db.memories ==> d.memories[id].status == db.memories[id].status
    ensures Outcome(s, d, true)
  {}

  /** Of the transactions that delete nothing, those that commit leave every counter exact just in
      case they take no memory that counts out of counting, unless it was active or has no counted
      edge, and copy no counted lineage row to a child that does not count: a merge of a stale
      source with a counted edge, and a copy with lineage of a memory whose promoted child has
      since been superseded, each leave a counter too high. */
  lemma TransactionKeepsExactly(s: State, db: Db, tx: Tx, order: seq<Edge>)
    requires WellFormed(s) && Exact(s) && Mirrors(s.world, db) && Inv(db) && !tx.TxHardDelete? && !tx.TxCascade?
    requires (tx.TxCopy? || tx.TxMove?) && Apply(db, tx).Ok? ==> CopyOrder(db, tx.copy, tx.newId, order)
    ensures Outcome(Triggered(s, db, tx, order), Commit(db, tx), KeepsCounters(s.world, db, tx))
  {
    ExactIsAhead(s);
    if Apply(db, tx).Err? {
      NothingTriggered(s, db, db);
    } else {
      match tx {
        case TxWrite(req, id, now) => WriteCounters(s, db, req, id, now);
        case TxUpdate(id, p, now) => UpdateCounters(s, db, id, p, now);
        case TxSupersede(oldId, req, newId, now) => SupersedeCounters(s, db, oldId, req, newId, now);
        case TxCompose(req, newId, now) =>
          if ComposeHit(db, req) {
            HitChangesNothing(db, req, newId, now);
            NothingTriggered(s, db, db);
          } else {
            ComposeCounters(s, db, req, newId, now);
          }
        case TxDecompose(req, opId, ids, now) =>
          if OpKey(db.memories[req.source].env, req.key) in db.operations {
            NothingTriggered(s, db, db);
          } else {
            DecomposeCounters(s, db, req, opId, ids, now);
          }
        case TxCopy(req, newId, now) => CopyCounters(s, db, req, newId, now, order);
        case TxMove(req, redirect, graphRef, newId, now) =>
          MoveWithoutRedirectNeverCommits(db, req, graphRef, newId, now);
          MoveCounters(s, db, req, newId, now, order);
        case TxBump(id, salience) => NothingTriggered(s, db, Commit(db, tx));
      }
    }
  }
}
