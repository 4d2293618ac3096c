/** The reference counters that triggers keep beside the edges, against the counts they stand for. */
module CounterModel {
  import opened StoreModel

  /** What a graph node stands for. */
  datatype Node = MemoryNode(memory: Id) | EntityNode | TaskNode

  datatype Rel = Rel(src: Id, dst: Id, kind: string)

  /** The tables the triggers read. */
  datatype World = World(status: map<Id, Status>, nodes: map<Id, Node>, relations: map<Id, Rel>, lineage: set<Edge>)

  /** The counter columns. */
  datatype Counters = Counters(relLink: map<Id, nat>, task: map<Id, nat>, lineage: map<Id, nat>)

  datatype State = State(world: World, counters: Counters)

  const AUTO_WIRE := "related_to_popular"

  /** The lineage relations that count, as re-issued without `split_from`. */
  predicate Whitelisted(r: Relation) {
    r.SummarizedFrom? || r.PromotedFrom? || r.DerivedFrom?
  }

  /** The statuses whose outgoing edges count. */
  predicate Counting(s: Status) {
    !s.Retired? && !s.Superseded?
  }

  /** Every foreign key of the tables holds, and every memory has its counters. */
  ghost predicate WellFormed(s: State) {
    var w := s.world;
    && (forall n :: n in w.nodes && w.nodes[n].MemoryNode? ==> w.nodes[n].memory in w.status)
    && (forall r :: r in w.relations ==> w.relations[r].src in w.nodes && w.relations[r].dst in w.nodes)
    && (forall e :: e in w.lineage ==> e.parent in w.status && e.child in w.status)
    && s.counters.relLink.Keys == w.status.Keys && s.counters.task.Keys == w.status.Keys
    && s.counters.lineage.Keys == w.status.Keys
  }

  // ------------------------------------------------------------ what the counters stand for

  /** A relation whose arrival at memory `m` the triggers count. */
  predicate Counts(w: World, x: Rel, m: Id) {
    && x.kind != AUTO_WIRE && x.src in w.nodes && x.dst in w.nodes && w.nodes[x.dst] == MemoryNode(m)
  }

  predicate FromTask(w: World, x: Rel) {
    x.src in w.nodes && w.nodes[x.src].TaskNode?
  }

  /** The source is no memory, or a memory neither retired nor superseded. */
  predicate CountingSource(w: World, x: Rel) {
    x.src in w.nodes &&
    (w.nodes[x.src].MemoryNode? ==> w.nodes[x.src].memory in w.status && Counting(w.status[w.nodes[x.src].memory]))
  }

  predicate CountingChild(w: World, e: Edge) {
    e.child in w.status && Counting(w.status[e.child])
  }

  ghost function RelLinkEdges(w: World, m: Id): set<Id> {
    set r | r in w.relations && Counts(w, w.relations[r], m) && !FromTask(w, w.relations[r])
      && CountingSource(w, w.relations[r])
  }

  ghost function TaskEdges(w: World, m: Id): set<Id> {
    set r | r in w.relations && Counts(w, w.relations[r], m) && FromTask(w, w.relations[r])
  }

  ghost function LineageEdges(w: World, m: Id): set<Edge> {
    set e | e in w.lineage && e.parent == m && Whitelisted(e.relation) && CountingChild(w, e)
  }

  /** Every counter of `m` is the number of counted incoming edges with a counting source. */
  ghost predicate ExactAt(s: State, m: Id) {
    && m in s.counters.relLink && m in s.counters.task && m in s.counters.lineage
    && s.counters.relLink[m] == |RelLinkEdges(s.world, m)|
    && s.counters.task[m] == |TaskEdges(s.world, m)|
    && s.counters.lineage[m] == |LineageEdges(s.world, m)|
  }

  ghost predicate Exact(s: State) {
    forall m {:trigger ExactAt(s, m)} :: m in s.world.status ==> ExactAt(s, m)
  }

  // ------------------------------------------------------------ the triggers

  function Clamp(n: int): nat {
    if n < 0 then 0 else n
  }

  function Bump(c: map<Id, nat>, m: Id, delta: int): map<Id, nat> {
    if m in c then c[m := Clamp(c[m] + delta)] else c
  }

  /** INSERT or DELETE of one relation, `delta` being 1 or -1: the source's status is not looked at. */
  function RelationTrigger(w: World, c: Counters, x: Rel, delta: int): Counters {
    if x.kind == AUTO_WIRE || x.dst !in w.nodes || !w.nodes[x.dst].MemoryNode? then c
    else if FromTask(w, x) then c.(task := Bump(c.task, w.nodes[x.dst].memory, delta))
    else c.(relLink := Bump(c.relLink, w.nodes[x.dst].memory, delta))
  }

  function LineageTrigger(c: Counters, e: Edge, delta: int): Counters {
    if Whitelisted(e.relation) then c.(lineage := Bump(c.lineage, e.parent, delta)) else c
  }

  predicate GoingInactive(before: Status, after: Status) {
    before.Active? && (after.Retired? || after.Superseded?)
  }

  predicate GoingActive(before: Status, after: Status) {
    after.Active? && (before.Retired? || before.Superseded?)
  }

  /** The counted relations from memory `src` to memory `m`. */
  function OutRelations(w: World, src: Id, m: Id): set<Id> {
    set r | r in w.relations && Counts(w, w.relations[r], m) && w.nodes[w.relations[r].src] == MemoryNode(src)
  }

  function OutLineage(w: World, src: Id, m: Id): set<Edge> {
    set e | e in w.lineage && e.child == src && e.parent == m && Whitelisted(e.relation)
  }

  /** A counter after one grouped update of `n` edges, up or down. */
  function Shift(c: nat, n: nat, up: bool): nat {
    Clamp(if up then c + n else c - n)
  }

  /** The status-flip trigger: every target takes the grouped count of its edges in one clamped step. */
  function FlipTrigger(w: World, c: Counters, src: Id, up: bool): Counters {
    c.(relLink := map m | m in c.relLink :: Shift(c.relLink[m], |OutRelations(w, src, m)|, up),
       lineage := map m | m in c.lineage :: Shift(c.lineage[m], |OutLineage(w, src, m)|, up))
  }

  // ------------------------------------------------------------ the statements

  function InsertRelation(s: State, r: Id, x: Rel): State {
    State(s.world.(relations := s.world.relations[r := x]), RelationTrigger(s.world, s.counters, x, 1))
  }

  function DeleteRelation(s: State, r: Id): State
    requires r in s.world.relations
  {
    State(s.world.(relations := s.world.relations - {r}),
          RelationTrigger(s.world, s.counters, s.world.relations[r], -1))
  }

  function InsertLineage(s: State, e: Edge): State {
    State(s.world.(lineage := s.world.lineage + {e}), LineageTrigger(s.counters, e, 1))
  }

  function DeleteLineage(s: State, e: Edge): State {
    State(s.world.(lineage := s.world.lineage - {e}), LineageTrigger(s.counters, e, -1))
  }

  function SetStatus(s: State, m: Id, after: Status): State
    requires m in s.world.status
  {
    var before := s.world.status[m];
    var w := s.world.(status := s.world.status[m := after]);
    if GoingInactive(before, after) then State(w, FlipTrigger(w, s.counters, m, false))
    else if GoingActive(before, after) then State(w, FlipTrigger(w, s.counters, m, true))
    else State(w, s.counters)
  }

  /** A new memory has no edges yet and counters of zero. */
  function AddMemory(s: State, m: Id, status: Status): State {
    State(s.world.(status := s.world.status[m := status]),
          Counters(s.counters.relLink[m := 0], s.counters.task[m := 0], s.counters.lineage[m := 0]))
  }

  function AddNode(s: State, n: Id, node: Node): State {
    s.(world := s.world.(nodes := s.world.nodes[n := node]))
  }
}

/** When the triggers keep the counters exact. */
module CounterTheorems {
  import opened StoreModel
  import opened CounterModel

  lemma Added<T>(a: set<T>, x: T, yes: bool)
    requires x !in a
    ensures |a + (if yes then {x} else {})| == |a| + (if yes then 1 else 0)
  {
    assert a + {} == a;
  }

  // ------------------------------------------------------------ inserting and deleting edges

  lemma InsertedRelationSets(s: State, r: Id, x: Rel, m: Id)
    requires r !in s.world.relations && x.src in s.world.nodes && x.dst in s.world.nodes
    ensures var w, w' := s.world, InsertRelation(s, r, x).world;
            && RelLinkEdges(w', m) ==
              RelLinkEdges(w, m) + (if Counts(w, x, m) && !FromTask(w, x) && CountingSource(w, x) then {r} else {})
            && TaskEdges(w', m) == TaskEdges(w, m) + (if Counts(w, x, m) && FromTask(w, x) then {r} else {})
            && LineageEdges(w', m) == LineageEdges(w, m)
  {
    var w, w' := s.world, InsertRelation(s, r, x).world;
    forall q | q in w'.relations
      ensures Counts(w', w'.relations[q], m) == Counts(w, w'.relations[q], m)
      ensures FromTask(w', w'.relations[q]) == FromTask(w, w'.relations[q])
      ensures CountingSource(w', w'.relations[q]) == CountingSource(w, w'.relations[q])
    {}
    assert r !in RelLinkEdges(w, m) && r !in TaskEdges(w, m);
  }

  lemma InsertedCounters(s: State, r: Id, x: Rel, m: Id)
    requires x.src in s.world.nodes && x.dst in s.world.nodes
    requires m in s.counters.relLink && m in s.counters.task && m in s.counters.lineage
    ensures var c := InsertRelation(s, r, x).counters;
            && m in c.relLink && m in c.task && c.lineage == s.counters.lineage
            && c.relLink[m] == s.counters.relLink[m] + (if Counts(s.world, x, m) && !FromTask(s.world, x) then 1 else 0)
            && c.task[m] == s.counters.task[m] + (if Counts(s.world, x, m) && FromTask(s.world, x) then 1 else 0)
  {}

  lemma InsertRelationAt(s: State, r: Id, x: Rel, m: Id)
    requires r !in s.world.relations && x.src in s.world.nodes && x.dst in s.world.nodes
    requires ExactAt(s, m)
    ensures ExactAt(InsertRelation(s, r, x), m) <==> !Counts(s.world, x, m) || CountingSource(s.world, x)
  {
    InsertedRelationSets(s, r, x, m);
    InsertedCounters(s, r, x, m);
    var w := s.world;
    assert r !in RelLinkEdges(w, m) && r !in TaskEdges(w, m);
    Added(RelLinkEdges(w, m), r, Counts(w, x, m) && !FromTask(w, x) && CountingSource(w, x));
    Added(TaskEdges(w, m), r, Counts(w, x, m) && FromTask(w, x));
  }

  lemma InsertRelationWellFormed(s: State, r: Id, x: Rel)
    requires WellFormed(s) && x.src in s.world.nodes && x.dst in s.world.nodes
    ensures WellFormed(InsertRelation(s, r, x))
  {}

  /** An inserted relation keeps the counters exact exactly when it is not counted at all or
      its source counts. */
  lemma InsertRelationExactly(s: State, r: Id, x: Rel)
    requires WellFormed(s) && Exact(s) && r !in s.world.relations && x.src in s.world.nodes && x.dst in s.world.nodes
    ensures WellFormed(InsertRelation(s, r, x))
    ensures Exact(InsertRelation(s, r, x)) <==>
              x.kind == AUTO_WIRE || !s.world.nodes[x.dst].MemoryNode? || CountingSource(s.world, x)
  {
    InsertRelationWellFormed(s, r, x);
    var t := InsertRelation(s, r, x);
    forall m | m in s.world.status ensures ExactAt(t, m) <==> !Counts(s.world, x, m) || CountingSource(s.world, x) {
      assert ExactAt(s, m);
      InsertRelationAt(s, r, x, m);
    }
    if x.kind != AUTO_WIRE && s.world.nodes[x.dst].MemoryNode? && !CountingSource(s.world, x) {
      assert !ExactAt(t, s.world.nodes[x.dst].memory);
    }
  }

  lemma DeletedRelationSets(s: State, r: Id, m: Id)
    requires r in s.world.relations
    ensures var w, w' := s.world, DeleteRelation(s, r).world;
            && RelLinkEdges(w', m) == RelLinkEdges(w, m) - {r}
            && TaskEdges(w', m) == TaskEdges(w, m) - {r}
            && LineageEdges(w', m) == LineageEdges(w, m)
  {
    var w, w' := s.world, DeleteRelation(s, r).world;
    forall q | q in w'.relations
      ensures Counts(w', w'.relations[q], m) == Counts(w, w'.relations[q], m)
      ensures FromTask(w', w'.relations[q]) == FromTask(w, w'.relations[q])
      ensures CountingSource(w', w'.relations[q]) == CountingSource(w, w'.relations[q])
    {}
  }

  lemma DeletedCounters(s: State, r: Id, m: Id)
    requires r in s.world.relations && s.world.relations[r].src in s.world.nodes
             && s.world.relations[r].dst in s.world.nodes
    requires m in s.counters.relLink && m in s.counters.task && m in s.counters.lineage
    ensures var c, x := DeleteRelation(s, r).counters, s.world.relations[r];
            && m in c.relLink && m in c.task && c.lineage == s.counters.lineage
            && c.relLink[m] ==
              Shift(s.counters.relLink[m], if Counts(s.world, x, m) && !FromTask(s.world, x) then 1 else 0, false)
            && c.task[m] == Shift(s.counters.task[m], if Counts(s.world, x, m) && FromTask(s.world, x) then 1
                                  else 0, false)
  {}

  lemma DeletedMembership(s: State, r: Id, m: Id)
    requires r in s.world.relations
    ensures var w, x := s.world, s.world.relations[r];
            && (r in RelLinkEdges(w, m) <==> Counts(w, x, m) && !FromTask(w, x) && CountingSource(w, x))
            && (r in TaskEdges(w, m) <==> Counts(w, x, m) && FromTask(w, x))
  {}

  lemma DeleteRelationAt(s: State, r: Id, m: Id)
    requires r in s.world.relations && s.world.relations[r].src in s.world.nodes
             && s.world.relations[r].dst in s.world.nodes
    requires ExactAt(s, m)
    ensures var x := s.world.relations[r];
            ExactAt(DeleteRelation(s, r), m) <==>
              !Counts(s.world, x, m) || CountingSource(s.world, x) || s.counters.relLink[m] == 0
  {
    DeletedRelationSets(s, r, m);
    DeletedCounters(s, r, m);
    DeletedMembership(s, r, m);
    var (a, b) := (RelLinkEdges(s.world, m), TaskEdges(s.world, m));
    Removed(a, r);
    Removed(b, r);
  }

  lemma DeleteRelationWellFormed(s: State, r: Id)
    requires WellFormed(s) && r in s.world.relations
    ensures WellFormed(DeleteRelation(s, r))
  {}

  /** A directly deleted relation keeps the counters exact exactly when it was not counted, its
      source counts, or the clamp found the counter at zero already. */
  lemma DeleteRelationExactly(s: State, r: Id)
    requires WellFormed(s) && Exact(s) && r in s.world.relations
    ensures WellFormed(DeleteRelation(s, r))
    ensures var x := s.world.relations[r];
            Exact(DeleteRelation(s, r)) <==>
              x.kind == AUTO_WIRE || !s.world.nodes[x.dst].MemoryNode? || CountingSource(s.world, x)
              || s.counters.relLink[s.world.nodes[x.dst].memory] == 0
  {
    DeleteRelationWellFormed(s, r);
    var t, x := DeleteRelation(s, r), s.world.relations[r];
    forall m | m in s.world.status
      ensures ExactAt(t, m) <==> !Counts(s.world, x, m) || CountingSource(s.world, x) || s.counters.relLink[m] == 0
    {
      assert ExactAt(s, m);
      DeleteRelationAt(s, r, m);
    }
    if x.kind != AUTO_WIRE && s.world.nodes[x.dst].MemoryNode? {
      assert ExactAt(t, s.world.nodes[x.dst].memory) <==>
          CountingSource(s.world, x) || s.counters.relLink[s.world.nodes[x.dst].memory] == 0;
    }
  }

  lemma SameRelations(w: World, w': World, m: Id)
    requires w'.status == w.status && w'.nodes == w.nodes && w'.relations == w.relations
    ensures RelLinkEdges(w', m) == RelLinkEdges(w, m) && TaskEdges(w', m) == TaskEdges(w, m)
  {
    forall q | q in w.relations
      ensures Counts(w', w.relations[q], m) == Counts(w, w.relations[q], m)
      ensures FromTask(w', w.relations[q]) == FromTask(w, w.relations[q])
      ensures CountingSource(w', w.relations[q]) == CountingSource(w, w.relations[q])
    {}
  }

  lemma InsertedLineageSets(s: State, e: Edge, m: Id)
    requires e !in s.world.lineage
    ensures var w, w' := s.world, InsertLineage(s, e).world;
            && RelLinkEdges(w', m) == RelLinkEdges(w, m) && TaskEdges(w', m) == TaskEdges(w, m)
            && LineageEdges(w', m) ==
                 LineageEdges(w, m) + (if m == e.parent && Whitelisted(e.relation) && CountingChild(w, e) then {e}
                                       else {})
            && e !in LineageEdges(w, m)
  {
    SameRelations(s.world, InsertLineage(s, e).world, m);
  }

  lemma InsertLineageAt(s: State, e: Edge, m: Id)
    requires e !in s.world.lineage && ExactAt(s, m)
    ensures ExactAt(InsertLineage(s, e), m) <==> m != e.parent || !Whitelisted(e.relation) || CountingChild(s.world, e)
  {
    InsertedLineageSets(s, e, m);
    Added(LineageEdges(s.world, m), e, m == e.parent && Whitelisted(e.relation) && CountingChild(s.world, e));
  }

  lemma InsertLineageWellFormed(s: State, e: Edge)
    requires WellFormed(s) && e.parent in s.world.status && e.child in s.world.status
    ensures WellFormed(InsertLineage(s, e))
  {}

  lemma InsertLineageExactly(s: State, e: Edge)
    requires WellFormed(s) && Exact(s) && e !in s.world.lineage && e.parent in s.world.status
             && e.child in s.world.status
    ensures WellFormed(InsertLineage(s, e))
    ensures Exact(InsertLineage(s, e)) <==> !Whitelisted(e.relation) || CountingChild(s.world, e)
  {
    InsertLineageWellFormed(s, e);
    InsertLineageEverywhere(s, e);
  }

  lemma InsertLineageEverywhere(s: State, e: Edge)
    requires Exact(s) && e !in s.world.lineage && e.parent in s.world.status
    ensures Exact(InsertLineage(s, e)) <==> !Whitelisted(e.relation) || CountingChild(s.world, e)
  {
    var t := InsertLineage(s, e);
    forall m | m in s.world.status
      ensures ExactAt(t, m) <==> m != e.parent || !Whitelisted(e.relation) || CountingChild(s.world, e)
    {
      assert ExactAt(s, m);
      InsertLineageAt(s, e, m);
    }
    assert ExactAt(t, e.parent) <==> !Whitelisted(e.relation) || CountingChild(s.world, e);
  }

  lemma DeleteLineageAt(s: State, e: Edge, m: Id)
    requires e in s.world.lineage && ExactAt(s, m)
    ensures ExactAt(DeleteLineage(s, e), m) <==>
              m != e.parent || !Whitelisted(e.relation) || CountingChild(s.world, e) || s.counters.lineage[m] == 0
  {
    var w, w' := s.world, DeleteLineage(s, e).world;
    SameRelations(w, w', m);
    assert LineageEdges(w', m) == LineageEdges(w, m) - {e};
    Removed(LineageEdges(w, m), e);
  }

  lemma DeleteLineageExactly(s: State, e: Edge)
    requires WellFormed(s) && Exact(s) && e in s.world.lineage
    ensures WellFormed(DeleteLineage(s, e))
    ensures Exact(DeleteLineage(s, e)) <==>
              !Whitelisted(e.relation) || CountingChild(s.world, e) || s.counters.lineage[e.parent] == 0
  {
    var t := DeleteLineage(s, e);
    forall m | m in s.world.status
      ensures ExactAt(t, m) <==>
                m != e.parent || !Whitelisted(e.relation) || CountingChild(s.world, e) || s.counters.lineage[m] == 0
    {
      assert ExactAt(s, m);
      DeleteLineageAt(s, e, m);
    }
    assert ExactAt(t, e.parent) <==>
        !Whitelisted(e.relation) || CountingChild(s.world, e) || s.counters.lineage[e.parent] == 0;
  }

  // ------------------------------------------------------------ status flips

  /** What a memory's status decides: its outgoing counted edges, and nothing else. */
  lemma FlippedSets(s: State, src: Id, after: Status, m: Id)
    requires src in s.world.status
    ensures var w, w' := s.world, s.world.(status := s.world.status[src := after]);
            && OutRelations(w', src, m) == OutRelations(w, src, m) && OutLineage(w', src, m) == OutLineage(w, src, m)
            && TaskEdges(w', m) == TaskEdges(w, m)
            && RelLinkEdges(w', m) ==
                 (if Counting(after) then RelLinkEdges(w, m) + OutRelations(w, src, m)
                  else RelLinkEdges(w, m) - OutRelations(w, src, m))
            && LineageEdges(w', m) ==
                 (if Counting(after) then LineageEdges(w, m) + OutLineage(w, src, m)
                  else LineageEdges(w, m) - OutLineage(w, src, m))
            && (if Counting(w.status[src]) then OutRelations(w, src, m) <= RelLinkEdges(w, m)
                && OutLineage(w, src, m) <= LineageEdges(w, m)
                else OutRelations(w, src, m) !! RelLinkEdges(w, m) && OutLineage(w, src, m) !! LineageEdges(w, m))
  {
    var w, w' := s.world, s.world.(status := s.world.status[src := after]);
    forall q | q in w.relations
      ensures Counts(w', w.relations[q], m) == Counts(w, w.relations[q], m)
      ensures FromTask(w', w.relations[q]) == FromTask(w, w.relations[q])
      ensures CountingSource(w', w.relations[q]) ==
                (if w.relations[q].src in w.nodes && w.nodes[w.relations[q].src] == MemoryNode(src)
                 then Counting(after) else CountingSource(w, w.relations[q]))
    {}
  }

  /** The memory has no counted edge to any memory. */
  ghost predicate NoOutgoing(w: World, src: Id) {
    forall m {:trigger NoneTo(w, src, m)} :: m in w.status ==> NoneTo(w, src, m)
  }

  ghost predicate NoneTo(w: World, src: Id, m: Id) {
    OutRelations(w, src, m) == {} && OutLineage(w, src, m) == {}
  }

  /** A status change keeps the counters exact exactly when it does not move the memory between
      counting and not counting, or moves it directly from or to active, or has nothing to move. */
  lemma SetStatusExactly(s: State, src: Id, after: Status)
    requires WellFormed(s) && Exact(s) && src in s.world.status
    ensures WellFormed(SetStatus(s, src, after))
    ensures var before := s.world.status[src];
            Exact(SetStatus(s, src, after)) <==>
              || Counting(before) == Counting(after)
              || before.Active? || after.Active?
              || NoOutgoing(s.world, src)
  {
    SetStatusWellFormed(s, src, after);
    var t, before := SetStatus(s, src, after), s.world.status[src];
    forall m | m in s.world.status
      ensures ExactAt(t, m) <==>
                || Counting(before) == Counting(after) || before.Active? || after.Active? || NoneTo(s.world, src, m)
    {
      assert ExactAt(s, m);
      FlipExactlyAt(s, src, after, m);
    }
  }

  lemma SetStatusWellFormed(s: State, src: Id, after: Status)
    requires WellFormed(s) && src in s.world.status
    ensures WellFormed(SetStatus(s, src, after))
  {}

  /** How the trigger moved a counter: it fires on two kinds of flip only. */
  function Moved(c: nat, n: nat, before: Status, after: Status): nat {
    if GoingInactive(before, after) then Shift(c, n, false) else if GoingActive(before, after) then Shift(c, n, true)
      else c
  }

  /** One counter and the memory's share in it, across a status change. */
  lemma FlipCount<T>(a: set<T>, b: set<T>, before: Status, after: Status)
    requires if Counting(before) then b <= a else b !! a
    ensures Moved(|a|, |b|, before, after) == |if Counting(after) then a + b else a - b|
            <==> Counting(before) == Counting(after) || before.Active? || after.Active? || b == {}
  {
    if Counting(before) { SplitSize(a, b); assert a + b == a; } else { assert a - b == a && |a + b| == |a| + |b|; }
    if b != {} { assert |b| > 0; }
  }

  lemma FlippedCounters(s: State, src: Id, after: Status, m: Id)
    requires src in s.world.status && m in s.counters.relLink && m in s.counters.lineage
    ensures var c, before := SetStatus(s, src, after).counters, s.world.status[src];
            && m in c.relLink && m in c.lineage && c.task == s.counters.task
            && c.relLink[m] == Moved(s.counters.relLink[m], |OutRelations(s.world, src, m)|, before, after)
            && c.lineage[m] == Moved(s.counters.lineage[m], |OutLineage(s.world, src, m)|, before, after)
  {
    FlippedSets(s, src, after, m);
  }

  lemma FlipExactlyAt(s: State, src: Id, after: Status, m: Id)
    requires src in s.world.status && m in s.world.status && ExactAt(s, m)
    ensures var before := s.world.status[src];
            ExactAt(SetStatus(s, src, after), m) <==>
              || Counting(before) == Counting(after) || before.Active? || after.Active? || NoneTo(s.world, src, m)
  {
    var before := s.world.status[src];
    FlippedSets(s, src, after, m);
    FlippedCounters(s, src, after, m);
    FlipCount(RelLinkEdges(s.world, m), OutRelations(s.world, src, m), before, after);
    FlipCount(LineageEdges(s.world, m), OutLineage(s.world, src, m), before, after);
  }

  /** Taking one element out of a set costs it one exactly when it was there. */
  lemma Removed<T>(a: set<T>, x: T)
    ensures |a - {x}| == |a| - (if x in a then 1 else 0)
  {
    if x in a { SplitSize(a, {x}); } else { assert a - {x} == a; }
  }

  lemma SplitSize<T>(a: set<T>, b: set<T>)
    requires b <= a
    ensures |a - b| == |a| - |b|
  {
    assert a == (a - b) + b;
  }

  // ------------------------------------------------------------ the clamp and the grouping

  /** Single clamped updates, `n` of them. */
  function Repeated(c: nat, n: nat, up: bool): nat {
    if n == 0 then c else Shift(Repeated(c, n - 1, up), 1, up)
  }

  /** One grouped update of `n` edges is `n` single clamped updates. */
  lemma {:induction false} GroupedIsRepeated(c: nat, n: nat, up: bool)
    ensures Repeated(c, n, up) == Shift(c, n, up)
  {
    if n > 0 { GroupedIsRepeated(c, n - 1, up); }
  }

  /** From exact counters, a flip out of counting never needs its clamp. */
  lemma ClampNeverBites(s: State, src: Id, m: Id)
    requires WellFormed(s) && Exact(s) && src in s.world.status && m in s.world.status && Counting(s.world.status[src])
    ensures s.counters.relLink[m] >= |OutRelations(s.world, src, m)|
    ensures s.counters.lineage[m] >= |OutLineage(s.world, src, m)|
  {
    assert ExactAt(s, m);
    FlippedSets(s, src, s.world.status[src], m);
    SplitSize(RelLinkEdges(s.world, m), OutRelations(s.world, src, m));
    SplitSize(LineageEdges(s.world, m), OutLineage(s.world, src, m));
  }

  /** Nor does deleting one relation that counted, or one lineage row that did. */
  lemma ClampNeverBitesOnRelation(s: State, r: Id, m: Id)
    requires WellFormed(s) && Exact(s) && r in s.world.relations && m in s.world.status
             && Counts(s.world, s.world.relations[r], m)
    ensures FromTask(s.world, s.world.relations[r]) ==> s.counters.task[m] >= 1
    ensures !FromTask(s.world, s.world.relations[r]) && CountingSource(s.world, s.world.relations[r]) ==>
              s.counters.relLink[m] >= 1
  {
    assert ExactAt(s, m);
    DeletedMembership(s, r, m);
    Removed(RelLinkEdges(s.world, m), r);
    Removed(TaskEdges(s.world, m), r);
  }

  lemma ClampNeverBitesOnLineage(s: State, e: Edge)
    requires WellFormed(s) && Exact(s) && e in s.world.lineage && Whitelisted(e.relation) && CountingChild(s.world, e)
    ensures s.counters.lineage[e.parent] >= 1
  {
    assert ExactAt(s, e.parent);
    Removed(LineageEdges(s.world, e.parent), e);
  }

  // ------------------------------------------------------------ runs

  datatype Step =
    | AddsMemory(m: Id, status: Status)
    | AddsNode(n: Id, node: Node)
    | InsertsRelation(r: Id, rel: Rel)
    | DeletesRelation(r: Id)
    | InsertsLineage(e: Edge)
    | DeletesLineage(e: Edge)
    | SetsStatus(m: Id, after: Status)

  /** The keys, foreign keys and fresh ids every statement needs to be accepted. */
  ghost predicate Enabled(s: State, step: Step) {
    var w := s.world;
    match step
    case AddsMemory(m, _) => m !in w.status
    case AddsNode(n, node) => n !in w.nodes && (node.MemoryNode? ==> node.memory in w.status)
    case InsertsRelation(r, x) => r !in w.relations && x.src in w.nodes && x.dst in w.nodes
    case DeletesRelation(r) => r in w.relations
    case InsertsLineage(e) => e !in w.lineage && e.parent in w.status && e.child in w.status
    case DeletesLineage(e) => e in w.lineage
    case SetsStatus(m, _) => m in w.status
  }

  /** The run discipline: a memory's outgoing edges come and go only while it counts, and the two
      statuses that do not count are entered only from active and left only to active. */
  ghost predicate Disciplined(s: State, step: Step)
    requires Enabled(s, step)
  {
    match step
    case InsertsRelation(_, x) => CountingSource(s.world, x)
    case DeletesRelation(r) => CountingSource(s.world, s.world.relations[r])
    case InsertsLineage(e) => CountingChild(s.world, e)
    case DeletesLineage(e) => CountingChild(s.world, e)
    case SetsStatus(m, after) =>
      Counting(s.world.status[m]) != Counting(after) ==> s.world.status[m].Active? || after.Active?
    case _ => true
  }

  ghost function Perform(s: State, step: Step): State
    requires Enabled(s, step)
  {
    match step
    case AddsMemory(m, status) => AddMemory(s, m, status)
    case AddsNode(n, node) => AddNode(s, n, node)
    case InsertsRelation(r, x) => InsertRelation(s, r, x)
    case DeletesRelation(r) => DeleteRelation(s, r)
    case InsertsLineage(e) => InsertLineage(s, e)
    case DeletesLineage(e) => DeleteLineage(s, e)
    case SetsStatus(m, after) => SetStatus(s, m, after)
  }

  lemma NewcomersKeepExact(s: State, step: Step)
    requires WellFormed(s) && Exact(s) && Enabled(s, step) && (step.AddsMemory? || step.AddsNode?)
    ensures WellFormed(Perform(s, step)) && Exact(Perform(s, step))
  {
    var t := Perform(s, step);
    var w, w' := s.world, t.world;
    forall m | m in w'.status ensures ExactAt(t, m) {
      forall q | q in w.relations
        ensures Counts(w', w.relations[q], m) == Counts(w, w.relations[q], m)
        ensures FromTask(w', w.relations[q]) == FromTask(w, w.relations[q])
        ensures CountingSource(w', w.relations[q]) == CountingSource(w, w.relations[q])
      {}
      assert RelLinkEdges(w', m) == RelLinkEdges(w, m) && TaskEdges(w', m) == TaskEdges(w, m)
        && LineageEdges(w', m) == LineageEdges(w, m);
      if m in w.status { assert ExactAt(s, m); }
      else { assert RelLinkEdges(w, m) == {} && TaskEdges(w, m) == {} && LineageEdges(w, m) == {}; }
    }
  }

  lemma DisciplinedStepKeepsExact(s: State, step: Step)
    requires WellFormed(s) && Exact(s) && Enabled(s, step) && Disciplined(s, step)
    ensures WellFormed(Perform(s, step)) && Exact(Perform(s, step))
  {
    match step
    case InsertsRelation(r, x) => InsertRelationExactly(s, r, x);
    case DeletesRelation(r) => DeleteRelationExactly(s, r);
    case InsertsLineage(e) => InsertLineageExactly(s, e);
    case DeletesLineage(e) => DeleteLineageExactly(s, e);
    case SetsStatus(m, after) => SetStatusExactly(s, m, after);
    case _ => NewcomersKeepExact(s, step);
  }

  /** A run of accepted, disciplined statements. */
  ghost predicate IsRun(states: seq<State>, steps: seq<Step>) {
    && |states| == |steps| + 1
    && states[0] == State(World(map[], map[], map[], {}), Counters(map[], map[], map[]))
    && forall i :: 0 <= i < |steps| ==>
         Enabled(states[i], steps[i]) && Disciplined(states[i], steps[i])
         && states[i + 1] == Perform(states[i], steps[i])
  }

  /** Along every disciplined run every counter equals the number of counted incoming edges
      whose source is no memory or a memory neither retired nor superseded. */
  lemma {:induction false} DisciplinedRunsStayExact(states: seq<State>, steps: seq<Step>, i: nat)
    requires IsRun(states, steps) && i < |states|
    ensures WellFormed(states[i]) && Exact(states[i])
    decreases i
  {
    if i > 0 {
      DisciplinedRunsStayExact(states, steps, i - 1);
      DisciplinedStepKeepsExact(states[i - 1], steps[i - 1]);
    }
  }

  /** What the statement takes away from the counters of `m` is there to be taken. */
  ghost predicate ClampIdle(s: State, step: Step, m: Id)
    requires Enabled(s, step) && m in s.counters.relLink && m in s.counters.task && m in s.counters.lineage
  {
    match step
    case DeletesRelation(r) =>
      Counts(s.world, s.world.relations[r], m) ==>
        (if FromTask(s.world, s.world.relations[r]) then s.counters.task[m] else s.counters.relLink[m]) >= 1
    case DeletesLineage(e) => Whitelisted(e.relation) && m == e.parent ==> s.counters.lineage[m] >= 1
    case SetsStatus(src, after) =>
      GoingInactive(s.world.status[src], after) ==>
        s.counters.relLink[m] >= |OutRelations(s.world, src, m)|
          && s.counters.lineage[m] >= |OutLineage(s.world, src, m)|
    case _ => true
  }

  /** No statement of a disciplined run ever meets the clamp, at any memory. */
  lemma ClampIdleInRuns(states: seq<State>, steps: seq<Step>, i: nat, m: Id)
    requires IsRun(states, steps) && i < |steps| && m in states[i].world.status
    ensures ExactAt(states[i], m) && ClampIdle(states[i], steps[i], m)
  {
    DisciplinedRunsStayExact(states, steps, i);
    var s := states[i];
    assert ExactAt(s, m);
    match steps[i]
    case DeletesRelation(r) => if Counts(s.world, s.world.relations[r], m) { ClampNeverBitesOnRelation(s, r, m); }
    case DeletesLineage(e) => if Whitelisted(e.relation) { ClampNeverBitesOnLineage(s, e); }
    case SetsStatus(src, after) => if GoingInactive(s.world.status[src], after) { ClampNeverBites(s, src, m); }
    case _ =>
  }

  // ------------------------------------------------------------ the backfill

  /** The sources the from-scratch aggregate counts: no memory, or an active one. */
  predicate BackfillSource(w: World, x: Rel) {
    x.src in w.nodes &&
    (w.nodes[x.src].MemoryNode? ==> w.nodes[x.src].memory in w.status && w.status[w.nodes[x.src].memory].Active?)
  }

  ghost function BackfillRelLink(w: World, m: Id): set<Id> {
    set r | r in w.relations && Counts(w, w.relations[r], m) && !FromTask(w, w.relations[r])
      && BackfillSource(w, w.relations[r])
  }

  ghost function BackfillTask(w: World, m: Id): set<Id> {
    set r | r in w.relations && Counts(w, w.relations[r], m) && FromTask(w, w.relations[r])
      && BackfillSource(w, w.relations[r])
  }

  ghost function BackfillLineage(w: World, m: Id): set<Edge> {
    set e | e in w.lineage && e.parent == m && Whitelisted(e.relation) && e.child in w.status
      && w.status[e.child].Active?
  }

  /** The counters of `m` are what the from-scratch aggregate computes. */
  ghost predicate BackfilledAt(s: State, m: Id) {
    && m in s.counters.relLink && m in s.counters.task && m in s.counters.lineage
    && s.counters.relLink[m] == |BackfillRelLink(s.world, m)|
    && s.counters.task[m] == |BackfillTask(s.world, m)|
    && s.counters.lineage[m] == |BackfillLineage(s.world, m)|
  }

  ghost predicate Backfilled(s: State) {
    forall m {:trigger BackfilledAt(s, m)} :: m in s.world.status ==> BackfilledAt(s, m)
  }

  /** Every memory that counts as a source of `m` is active. */
  ghost predicate SourcesActiveAt(w: World, m: Id) {
    && (forall r :: r in RelLinkEdges(w, m) ==> BackfillSource(w, w.relations[r]))
    && (forall e :: e in LineageEdges(w, m) ==> w.status[e.child].Active?)
  }

  /** Exact counters are what the from-scratch aggregate computes exactly when every memory
      that still counts as a source is active. */
  lemma BackfillAgreesExactly(s: State)
    requires WellFormed(s) && Exact(s)
    ensures Backfilled(s) <==> forall m :: m in s.world.status ==> SourcesActiveAt(s.world, m)
  {
    forall m | m in s.world.status ensures BackfilledAt(s, m) <==> SourcesActiveAt(s.world, m) {
      assert ExactAt(s, m);
      BackfillAt(s, m);
    }
  }

  /** A part of a set is as large as the set exactly when it is all of it. */
  lemma PartIsWhole<T>(part: set<T>, whole: set<T>)
    requires part <= whole
    ensures |part| == |whole| <==> part == whole
  {
    SplitSize(whole, part);
    if |part| == |whole| { assert whole - part == {}; }
  }

  lemma BackfillAt(s: State, m: Id)
    requires WellFormed(s) && ExactAt(s, m)
    ensures BackfilledAt(s, m) <==> SourcesActiveAt(s.world, m)
  {
    var w := s.world;
    assert BackfillTask(w, m) == TaskEdges(w, m);
    PartIsWhole(BackfillRelLink(w, m), RelLinkEdges(w, m));
    PartIsWhole(BackfillLineage(w, m), LineageEdges(w, m));
    if BackfillRelLink(w, m) == RelLinkEdges(w, m) {
      forall r | r in RelLinkEdges(w, m) ensures BackfillSource(w, w.relations[r]) {
        assert r in BackfillRelLink(w, m);
      }
    }
    if BackfillLineage(w, m) == LineageEdges(w, m) {
      forall e | e in LineageEdges(w, m) ensures w.status[e.child].Active? { assert e in BackfillLineage(w, m); }
    }
  }
}

/** The triggers as they run: each statement changes its table and then updates counter columns in place. */
module CounterStore {
  import opened StoreModel
  import opened CounterModel

  /** The counted relations from `src` to `m` among the rows `rows`. */
  ghost function OutAmong(w: World, rows: set<Id>, src: Id, m: Id): set<Id> {
    set r | r in rows && r in w.relations && Counts(w, w.relations[r], m)
      && w.nodes[w.relations[r].src] == MemoryNode(src)
  }

  ghost function LineageAmong(rows: set<Edge>, src: Id, m: Id): set<Edge> {
    set e | e in rows && e.child == src && e.parent == m && Whitelisted(e.relation)
  }

  class CounterTables {
    var status: map<Id, Status>
    var nodes: map<Id, Node>
    var relations: map<Id, Rel>
    var lineage: set<Edge>
    var relLinkCount: map<Id, nat>
    var taskCount: map<Id, nat>
    var lineageCount: map<Id, nat>

    function Now(): State
      reads this
    {
      State(World(status, nodes, relations, lineage), Counters(relLinkCount, taskCount, lineageCount))
    }

    constructor ()
      ensures Now() == State(World(map[], map[], map[], {}), Counters(map[], map[], map[]))
    {
      status, nodes, relations, lineage := map[], map[], map[], {};
      relLinkCount, taskCount, lineageCount := map[], map[], map[];
    }

    /** AFTER INSERT OR DELETE ON relations, for the row `x`. */
    method RelationChanged(x: Rel, delta: int)
      modifies this`relLinkCount, this`taskCount
      ensures Now() == old(Now()).(counters := RelationTrigger(old(Now()).world, old(Now()).counters, x, delta))
    {
      if x.kind == AUTO_WIRE || x.dst !in nodes { return; }
      match nodes[x.dst]
      case MemoryNode(m) =>
        if x.src in nodes && nodes[x.src].TaskNode? {
          if m in taskCount { taskCount := taskCount[m := Clamp(taskCount[m] + delta)]; }
        } else {
          if m in relLinkCount { relLinkCount := relLinkCount[m := Clamp(relLinkCount[m] + delta)]; }
        }
      case _ =>
    }

    method AddRelation(r: Id, x: Rel)
      requires r !in relations
      modifies this`relations, this`relLinkCount, this`taskCount
      ensures Now() == InsertRelation(old(Now()), r, x)
    {
      relations := relations[r := x];
      RelationChanged(x, 1);
    }

    method DropRelation(r: Id)
      requires r in relations
      modifies this`relations, this`relLinkCount, this`taskCount
      ensures Now() == DeleteRelation(old(Now()), r)
    {
      var x := relations[r];
      relations := relations - {r};
      RelationChanged(x, -1);
    }

    method AddLineage(e: Edge)
      modifies this`lineage, this`lineageCount
      ensures Now() == InsertLineage(old(Now()), e)
    {
      lineage := lineage + {e};
      if Whitelisted(e.relation) && e.parent in lineageCount {
        lineageCount := lineageCount[e.parent := lineageCount[e.parent] + 1];
      }
    }

    method DropLineage(e: Edge)
      modifies this`lineage, this`lineageCount
      ensures Now() == DeleteLineage(old(Now()), e)
    {
      lineage := lineage - {e};
      if Whitelisted(e.relation) && e.parent in lineageCount {
        lineageCount := lineageCount[e.parent := Shift(lineageCount[e.parent], 1, false)];
      }
    }

    /** GROUP BY target over the relations leaving memory `src`. */
    method GroupRelations(src: Id) returns (agg: map<Id, nat>)
      ensures forall m :: (if m in agg then agg[m] else 0) == |OutRelations(Now().world, src, m)|
    {
      agg := map[];
      var rest := relations.Keys;
      ghost var w := Now().world;
      while rest != {}
        invariant rest <= relations.Keys
        invariant forall m :: (if m in agg then agg[m] else 0) == |OutAmong(w, relations.Keys - rest, src, m)|
        decreases |rest|
      {
        var r :| r in rest;
        ghost var seen := relations.Keys - rest;
        rest := rest - {r};
        assert relations.Keys - rest == seen + {r};
        ghost var before := agg;
        var x := relations[r];
        if x.kind != AUTO_WIRE && x.src in nodes && nodes[x.src] == MemoryNode(src) && x.dst in nodes
          && nodes[x.dst].MemoryNode? {
          var m := nodes[x.dst].memory;
          agg := agg[m := (if m in agg then agg[m] else 0) + 1];
        }
        forall m ensures (if m in agg then agg[m] else 0) == |OutAmong(w, seen + {r}, src, m)| {
          OneMoreRelation(w, seen, r, src, m);
        }
      }
      forall m ensures OutAmong(w, relations.Keys - rest, src, m) == OutRelations(w, src, m) {}
    }

    method GroupLineage(src: Id) returns (agg: map<Id, nat>)
      ensures forall m :: (if m in agg then agg[m] else 0) == |OutLineage(Now().world, src, m)|
    {
      agg := map[];
      var rest := lineage;
      while rest != {}
        invariant rest <= lineage
        invariant forall m :: (if m in agg then agg[m] else 0) == |LineageAmong(lineage - rest, src, m)|
        decreases |rest|
      {
        var e :| e in rest;
        ghost var seen := lineage - rest;
        rest := rest - {e};
        assert lineage - rest == seen + {e};
        if e.child == src && Whitelisted(e.relation) {
          agg := agg[e.parent := (if e.parent in agg then agg[e.parent] else 0) + 1];
        }
        forall m ensures (if m in agg then agg[m] else 0) == |LineageAmong(seen + {e}, src, m)| {
          OneMoreLineage(seen, e, src, m);
        }
      }
      assert lineage - rest == lineage;
      forall m ensures LineageAmong(lineage, src, m) == OutLineage(Now().world, src, m) {}
    }

    /** AFTER UPDATE OF status ON memories. */
    method ChangeStatus(m: Id, after: Status)
      requires m in status
      modifies this`status, this`relLinkCount, this`lineageCount
      ensures Now() == SetStatus(old(Now()), m, after)
    {
      var before := status[m];
      status := status[m := after];
      if !GoingInactive(before, after) && !GoingActive(before, after) { return; }
      var up := GoingActive(before, after);
      FlipRelLinks(m, up);
      FlipLineages(m, up);
    }

    method FlipRelLinks(m: Id, up: bool)
      modifies this`relLinkCount
      ensures relLinkCount == FlipTrigger(old(Now()).world, old(Now()).counters, m, up).relLink
    {
      var agg := GroupRelations(m);
      relLinkCount := ShiftAll(relLinkCount, agg, up);
    }

    method FlipLineages(m: Id, up: bool)
      modifies this`lineageCount
      ensures lineageCount == FlipTrigger(old(Now()).world, old(Now()).counters, m, up).lineage
    {
      var agg := GroupLineage(m);
      lineageCount := ShiftAll(lineageCount, agg, up);
    }
  }

  /** UPDATE ... FROM the grouped counts: every target row is updated once. */
  method ShiftAll(counts: map<Id, nat>, agg: map<Id, nat>, up: bool) returns (r: map<Id, nat>)
    ensures r == map m | m in counts :: Shift(counts[m], if m in agg then agg[m] else 0, up)
  {
    r := counts;
    var rest := counts.Keys;
    while rest != {}
      invariant rest <= counts.Keys && r.Keys == counts.Keys
      invariant forall m :: m in counts ==> r[m] == if m in rest || m !in agg then counts[m]
                else Shift(counts[m], agg[m], up)
      decreases |rest|
    {
      var m :| m in rest;
      if m in agg { r := r[m := Shift(r[m], agg[m], up)]; }
      rest := rest - {m};
    }
  }

  lemma OneMoreLineage(seen: set<Edge>, e: Edge, src: Id, m: Id)
    requires e !in seen
    ensures |LineageAmong(seen + {e}, src, m)| ==
              |LineageAmong(seen, src, m)| + (if e.child == src && e.parent == m && Whitelisted(e.relation) then 1
                                              else 0)
  {
    var hit := e.child == src && e.parent == m && Whitelisted(e.relation);
    assert LineageAmong(seen + {e}, src, m) == LineageAmong(seen, src, m) + (if hit then {e} else {});
    assert LineageAmong(seen, src, m) + {} == LineageAmong(seen, src, m);
  }

  lemma OneMoreRelation(w: World, seen: set<Id>, r: Id, src: Id, m: Id)
    requires r in w.relations && r !in seen
    ensures var x := w.relations[r];
            |OutAmong(w, seen + {r}, src, m)| ==
              |OutAmong(w, seen, src, m)| + (if Counts(w, x, m) && w.nodes[x.src] == MemoryNode(src) then 1 else 0)
  {
    var x := w.relations[r];
    var hit := Counts(w, x, m) && w.nodes[x.src] == MemoryNode(src);
    assert OutAmong(w, seen + {r}, src, m) == OutAmong(w, seen, src, m) + (if hit then {r} else {});
    assert OutAmong(w, seen, src, m) + {} == OutAmong(w, seen, src, m);
  }
}
