/** Dependency edges, paths, and the search that tells whether one more edge closes a cycle. */
module DependencyGraph {
  type Id = nat

  type Edges = set<(Id, Id)>

  ghost predicate Path(edges: Edges, p: seq<Id>) {
    p != [] && forall i :: 0 <= i < |p| - 1 ==> (p[i], p[i + 1]) in edges
  }

  ghost predicate PathFrom(edges: Edges, p: seq<Id>, a: Id, b: Id) {
    Path(edges, p) && p[0] == a && p[|p| - 1] == b
  }

  ghost predicate Reaches(edges: Edges, a: Id, b: Id) {
    exists p :: PathFrom(edges, p, a, b)
  }

  /** No way back along one edge or more. */
  ghost predicate Acyclic(edges: Edges) {
    forall p :: Path(edges, p) && |p| > 1 ==> p[0] != p[|p| - 1]
  }

  lemma ReachesSelf(edges: Edges, a: Id)
    ensures Reaches(edges, a, a)
  {
    assert PathFrom(edges, [a], a, a);
  }

  lemma ReachesThrough(edges: Edges, a: Id, b: Id, c: Id)
    requires Reaches(edges, a, b) && Reaches(edges, b, c)
    ensures Reaches(edges, a, c)
  {
    var p :| PathFrom(edges, p, a, b);
    var q :| PathFrom(edges, q, b, c);
    var r := p + q[1..];
    forall i | 0 <= i < |r| - 1 ensures (r[i], r[i + 1]) in edges {
      if i >= |p| - 1 { assert r[i] == q[i - (|p| - 1)] && r[i + 1] == q[i + 1 - (|p| - 1)]; }
    }
    assert PathFrom(edges, r, a, c);
  }

  lemma ReachesEdge(edges: Edges, a: Id, b: Id)
    requires (a, b) in edges
    ensures Reaches(edges, a, b)
  {
    assert PathFrom(edges, [a, b], a, b);
  }

  lemma PathTail(edges: Edges, p: seq<Id>)
    requires Path(edges, p) && |p| > 1
    ensures (p[0], p[1]) in edges && Path(edges, p[1..])
  {
    forall i | 0 <= i < |p| - 2 ensures (p[1..][i], p[1..][i + 1]) in edges { assert (p[i + 1], p[i + 2]) in edges; }
  }

  /** A path over one edge more either does not use it or goes to it and on from it. */
  lemma {:induction false} PathOverNewEdge(edges: Edges, a: Id, b: Id, p: seq<Id>)
    requires Path(edges + {(a, b)}, p)
    ensures Path(edges, p) || (Reaches(edges, p[0], a) && Reaches(edges, b, p[|p| - 1]))
    decreases |p|
  {
    if |p| > 1 {
      var rest := p[1..];
      PathTail(edges + {(a, b)}, p);
      PathOverNewEdge(edges, a, b, rest);
      if (p[0], p[1]) == (a, b) {
        ReachesSelf(edges, a);
        if Path(edges, rest) { assert PathFrom(edges, rest, b, p[|p| - 1]); }
      } else {
        assert (p[0], p[1]) in edges;
        if Path(edges, rest) {
          assert forall i :: 0 < i < |p| - 1 ==> (p[i], p[i + 1]) == (rest[i - 1], rest[i]);
        } else {
          ReachesEdge(edges, p[0], p[1]);
          ReachesThrough(edges, p[0], p[1], a);
        }
      }
    }
  }

  /** The check is enough: an edge whose end does not lead back to its start keeps the graph acyclic. */
  lemma CheckedEdgeKeepsAcyclic(edges: Edges, a: Id, b: Id)
    requires Acyclic(edges) && !Reaches(edges, b, a)
    ensures Acyclic(edges + {(a, b)})
  {
    forall p | Path(edges + {(a, b)}, p) && |p| > 1 ensures p[0] != p[|p| - 1] {
      PathOverNewEdge(edges, a, b, p);
      if p[0] == p[|p| - 1] && !Path(edges, p) { ReachesThrough(edges, b, p[0], a); }
    }
  }

  /** And it is needed: any other edge closes a cycle. */
  lemma RefusedEdgeClosesCycle(edges: Edges, a: Id, b: Id)
    requires Reaches(edges, b, a)
    ensures !Acyclic(edges + {(a, b)})
  {
    var p :| PathFrom(edges, p, b, a);
    var q := [a] + p;
    assert forall i :: 0 < i < |q| - 1 ==> (q[i], q[i + 1]) == (p[i - 1], p[i]);
    assert Path(edges + {(a, b)}, q) && q[0] == q[|q| - 1];
  }

  lemma {:induction false} ClosedSet(edges: Edges, closed: set<Id>, p: seq<Id>)
    requires Path(edges, p) && p[0] in closed
    requires forall e :: e in edges && e.0 in closed ==> e.1 in closed
    ensures p[|p| - 1] in closed
    decreases |p|
  {
    if |p| > 1 {
      PathTail(edges, p);
      ClosedSet(edges, closed, p[1..]);
    }
  }

  /** Depth-first over the edges from `dst`, looking for `src`; the order of rows is arbitrary. */
  method WouldCycle(edges: Edges, src: Id, dst: Id) returns (cycle: bool)
    ensures cycle <==> Reaches(edges, dst, src)
  {
    ReachesSelf(edges, dst);
    if src == dst { return true; }
    var frontier, seen: set<Id> := [dst], {};
    ghost var nodes := {dst} + set e | e in edges :: e.1;
    while frontier != []
      invariant forall x :: x in frontier ==> Reaches(edges, dst, x) && x in nodes
      invariant seen <= nodes && src !in seen && (dst in seen || dst in frontier)
      invariant forall e :: e in edges && e.0 in seen ==> e.1 in seen || e.1 in frontier
      decreases |nodes - seen|, |frontier|
    {
      var current := frontier[|frontier| - 1];
      ghost var before := frontier;
      frontier := frontier[..|frontier| - 1];
      assert before == frontier + [current];
      if current == src { return true; }
      if current in seen { continue; }
      assert nodes - seen == nodes - (seen + {current}) + {current};
      seen := seen + {current};
      var rows := set e | e in edges && e.0 == current :: e.1;
      frontier := PushUnseen(edges, dst, current, rows, seen, frontier);
    }
    if Reaches(edges, dst, src) {
      var p :| PathFrom(edges, p, dst, src);
      ClosedSet(edges, seen, p);
    }
    return false;
  }

  method PushUnseen(ghost edges: Edges, ghost dst: Id, ghost current: Id, rows: set<Id>, seen: set<Id>,
                    frontier: seq<Id>)
    returns (next: seq<Id>)
    requires Reaches(edges, dst, current) && forall x :: x in rows ==> (current, x) in edges
    requires forall x :: x in frontier ==> Reaches(edges, dst, x)
    ensures forall x :: x in next <==> x in frontier || (x in rows && x !in seen)
    ensures forall x :: x in next ==> Reaches(edges, dst, x)
  {
    next := frontier;
    var rest := rows;
    while rest != {}
      invariant rest <= rows
      invariant forall x :: x in next <==> x in frontier || (x in rows && x !in rest && x !in seen)
      invariant forall x :: x in next ==> Reaches(edges, dst, x)
      decreases |rest|
    {
      var x :| x in rest;
      if x !in seen {
        next := next + [x];
        ReachesEdge(edges, current, x);
        ReachesThrough(edges, dst, current, x);
      }
      rest := rest - {x};
    }
  }
}

/** Any number of concurrent link calls under READ COMMITTED, by either of the two entry points:
    graph nodes created on demand against a unique index, an advisory lock per environment around
    the cycle check, and a version guard on the row. */
module RelationLink {
  import opened Wrappers
  import opened DependencyGraph

  type Pid = nat

  datatype Kind = EntityRecord | MemoryRecord | TaskRecord

  datatype Record = Record(kind: Kind, id: Id)

  /** `relation_link` inserts nodes in a savepoint and updates an existing row; `task_dep_link`
      does neither: a lost insert is an error, an existing row is left as it is. */
  datatype Caller = LinkCall | TaskCall

  datatype Request = Request(caller: Caller, env: nat, src: Record, dst: Record, relation: string, properties: string,
                             expected: Option<nat>)

  /** Relations are keyed by the nodes they join and their type. */
  datatype Key = Key(src: Id, dst: Id, relation: string)

  datatype Relation = Relation(env: nat, version: nat, properties: string)

  datatype EventKey = EventKey(key: Key, version: nat)

  /** Where one transaction stands. */
  datatype Stage =
    | Idle
    | SrcMissing
    | SrcReady
    | DstMissing
    | BothReady
    | DepLocked
    | Checked
    | ToInsert
    | ToUpdate
    | Unchanged
    | Pending
    | Replied
    | Raised

  /** `src` and `dst` are the graph nodes found or made, `row` the row read or written, `mine` the
      nodes inserted but not committed. */
  datatype Process = Process(request: Request, stage: Stage, src: Id, dst: Id, row: Relation, mine: map<Id, Record>)

  /** `homes` says which records exist and where; the rest are committed tables, held locks and
      uncommitted index entries. */
  datatype State = State(
    homes: map<Record, nat>,
    nodes: map<Id, Record>,
    relations: map<Key, Relation>,
    outbox: map<EventKey, string>,
    depLocks: map<nat, Pid>,
    nodeClaims: map<Record, Pid>,
    rowClaims: map<Key, Pid>,
    issued: set<Id>,
    processes: seq<Process>)

  const DEPENDS_ON := "depends_on"

  /** The types an endpoint pair admits. */
  predicate TypeFits(r: Request) {
    if r.relation == DEPENDS_ON then r.src.kind.TaskRecord? && r.dst.kind.TaskRecord?
    else r.src.kind.TaskRecord? || r.dst.kind.TaskRecord? ==> r.relation in {"motivated_by", "produces", "references"}
  }

  predicate Valid(s: State, r: Request) {
    && r.src != r.dst && TypeFits(r) && (r.caller.TaskCall? ==> r.relation == DEPENDS_ON)
    && r.src in s.homes && s.homes[r.src] == r.env && r.dst in s.homes && s.homes[r.dst] == r.env
  }

  predicate NodeOf(s: State, id: Id, r: Record) {
    id in s.nodes && s.nodes[id] == r
  }

  /** The committed dependencies between the tasks of an environment. */
  ghost function Dependencies(s: State, env: nat): Edges {
    set k | k in s.relations && Counts(s, env, k) :: (s.nodes[k.src].id, s.nodes[k.dst].id)
  }

  ghost predicate Counts(s: State, env: nat, k: Key)
    requires k in s.relations
  {
    && s.relations[k].env == env && k.relation == DEPENDS_ON
    && k.src in s.nodes && k.dst in s.nodes && s.nodes[k.src].kind.TaskRecord? && s.nodes[k.dst].kind.TaskRecord?
  }

  // ------------------------------------------------------------ one step of one process

  /** `hit` is what a SELECT returned; `id` the node inserted, or already there when the insert is
      rejected; `cycle` the answer of the search. */
  datatype Action = FindNode(hit: Option<Id>) | InsertNode(id: Id) | TakeLock | CheckCycle(cycle: bool) | ReadRow
    | WriteRow | Commit | Abort

  function With(s: State, p: Pid, me: Process): State
    requires p < |s.processes|
  {
    s.(processes := s.processes[p := me])
  }

  function Without<K>(m: map<K, Pid>, p: Pid): map<K, Pid> {
    map k | k in m && m[k] != p :: m[k]
  }

  /** The end of a transaction frees its locks and forgets what it did not commit. */
  function Finished(s: State, p: Pid, stage: Stage): State
    requires p < |s.processes|
  {
    With(s, p, s.processes[p].(stage := stage, mine := map[])).(
      depLocks := Without(s.depLocks, p), nodeClaims := Without(s.nodeClaims, p), rowClaims := Without(s.rowClaims, p))
  }

  predicate InTransaction(stage: Stage) {
    !stage.Idle? && !stage.Replied? && !stage.Raised?
  }

  predicate Decided(stage: Stage) {
    stage.ToInsert? || stage.ToUpdate? || stage.Unchanged? || stage.Pending?
  }

  /** Both nodes are known. */
  predicate HasBoth(stage: Stage) {
    stage.BothReady? || stage.DepLocked? || stage.Checked? || Decided(stage)
  }

  predicate HasSrc(stage: Stage) {
    stage.SrcReady? || stage.DstMissing? || HasBoth(stage)
  }

  function KeyOf(me: Process): Key {
    Key(me.src, me.dst, me.request.relation)
  }

  /** The endpoint being looked for. */
  function Wanted(me: Process): Record {
    if me.stage.Idle? || me.stage.SrcMissing? then me.request.src else me.request.dst
  }

  function FoundNode(me: Process, id: Id): Process {
    if me.stage.Idle? || me.stage.SrcMissing? then me.(stage := SrcReady, src := id)
      else me.(stage := BothReady, dst := id)
  }

  function MissedNode(me: Process): Process {
    me.(stage := if me.stage.Idle? then SrcMissing else DstMissing)
  }

  predicate Enabled(s: State, p: Pid, a: Action) {
    && p < |s.processes|
    && var me := s.processes[p];
       match a
       case FindNode(hit) =>
         && (me.stage.Idle? || me.stage.SrcReady?)
         && (if hit.Some? then NodeOf(s, hit.value, Wanted(me))
             else forall id :: id in s.nodes ==> s.nodes[id] != Wanted(me))
       case InsertNode(id) =>
         && (me.stage.SrcMissing? || me.stage.DstMissing?) && Wanted(me) !in s.nodeClaims
         && (NodeOf(s, id, Wanted(me)) || (id !in s.issued && forall n :: n in s.nodes ==> s.nodes[n] != Wanted(me)))
       case TakeLock => me.stage.BothReady? && me.request.relation == DEPENDS_ON && me.request.env !in s.depLocks
       case CheckCycle(cycle) => me.stage.DepLocked?
       case ReadRow => me.stage.Checked? || (me.stage.BothReady? && me.request.relation != DEPENDS_ON)
       case WriteRow => (me.stage.ToInsert? || me.stage.ToUpdate?) && KeyOf(me) !in s.rowClaims
       case Commit => me.stage.Unchanged? || me.stage.Pending?
       case Abort => InTransaction(me.stage)
  }

  /** The search answers reachability over the committed dependencies of the environment. */
  ghost predicate Sound(s: State, p: Pid, a: Action) {
    a.CheckCycle? && p < |s.processes| ==>
      (a.cycle <==> Reaches(Dependencies(s, s.processes[p].request.env), s.processes[p].request.dst.id,
                            s.processes[p].request.src.id))
  }

  function Perform(s: State, p: Pid, a: Action): State
    requires Enabled(s, p, a)
  {
    var me := s.processes[p];
    match a
    case FindNode(hit) =>
      if me.stage.Idle? && !Valid(s, me.request) then Finished(s, p, Raised)
      else With(s, p, if hit.Some? then FoundNode(me, hit.value) else MissedNode(me))
    case InsertNode(id) =>
      if !NodeOf(s, id, Wanted(me)) then Inserted(s, p, id)
      else if me.request.caller.TaskCall? then Finished(s, p, Raised)
      else With(s, p, FoundNode(me, id))
    case TakeLock => With(s, p, me.(stage := DepLocked)).(depLocks := s.depLocks[me.request.env := p])
    case CheckCycle(cycle) => if cycle then Finished(s, p, Raised) else With(s, p, me.(stage := Checked))
    case ReadRow => Decide(s, p)
    case WriteRow => Apply(s, p)
    case Commit => if me.stage.Pending? then Publish(s, p) else Finished(s.(nodes := s.nodes + me.mine), p, Replied)
    case Abort => Finished(s, p, Raised)
  }

  function Inserted(s: State, p: Pid, id: Id): State
    requires p < |s.processes|
  {
    var me := s.processes[p];
    With(s, p, FoundNode(me, id).(mine := me.mine[id := Wanted(me)])).(
      nodeClaims := s.nodeClaims[Wanted(me) := p], issued := s.issued + {id})
  }

  /** No row: insert. A row is enough for `task_dep_link`; otherwise another version than expected
      is an error, and with the same properties there is nothing to do. */
  function Decision(s: State, me: Process): Stage {
    if KeyOf(me) !in s.relations then ToInsert
    else
      var row := s.relations[KeyOf(me)];
      if me.request.caller.TaskCall? then Unchanged
      else if me.request.expected.Some? && me.request.expected.value != row.version then Raised
      else if row.properties == me.request.properties then Unchanged
      else ToUpdate
  }

  function Decide(s: State, p: Pid): State
    requires p < |s.processes|
  {
    var me := s.processes[p];
    var key := KeyOf(me);
    if Decision(s, me).Raised? then Finished(s, p, Raised)
    else With(s, p, me.(stage := Decision(s, me), row := if key in s.relations then s.relations[key] else me.row))
  }

  /** The row written, not yet visible, with its key held. */
  function Wrote(s: State, p: Pid, row: Relation): State
    requires p < |s.processes|
  {
    With(s, p, s.processes[p].(stage := Pending, row := row)).(rowClaims := s.rowClaims[KeyOf(s.processes[p]) := p])
  }

  /** An insert meets the unique key; an update its version guard. */
  function Apply(s: State, p: Pid): State
    requires p < |s.processes|
  {
    var me := s.processes[p];
    var key := KeyOf(me);
    if me.stage.ToInsert? then
      if key in s.relations then Finished(s, p, Raised)
      else Wrote(s, p, Relation(me.request.env, 1, me.request.properties))
    else if key !in s.relations || s.relations[key].version != me.row.version then Finished(s, p, Raised)
    else Wrote(s, p, s.relations[key].(version := me.row.version + 1, properties := me.request.properties))
  }

  /** Nodes, row and event become visible together. */
  function Publish(s: State, p: Pid): State
    requires p < |s.processes|
  {
    var me := s.processes[p];
    var key := KeyOf(me);
    Finished(s.(nodes := s.nodes + me.mine, relations := s.relations[key := me.row],
                outbox := s.outbox[EventKey(key, me.row.version) := me.row.properties]), p, Replied)
  }

  // ------------------------------------------------------------ the invariant

  predicate HasNode(s: State, me: Process, id: Id, r: Record) {
    NodeOf(s, id, r) || (id in me.mine && me.mine[id] == r)
  }

  predicate HoldsDepLock(me: Process) {
    me.request.relation == DEPENDS_ON && (me.stage.DepLocked? || me.stage.Checked? || Decided(me.stage))
  }

  predicate HasChecked(me: Process) {
    me.request.relation == DEPENDS_ON && (me.stage.Checked? || Decided(me.stage))
  }

  /** A node inserted but not committed: its index entry is held, and no committed node is in its way. */
  ghost predicate MineOk(s: State, p: Pid, me: Process, id: Id)
    requires id in me.mine
  {
    var r := me.mine[id];
    && InTransaction(me.stage) && id in s.issued && id !in s.nodes
    && r in s.nodeClaims && s.nodeClaims[r] == p && (forall n :: n in s.nodes ==> s.nodes[n] != r)
    && ((HasSrc(me.stage) && id == me.src) || (HasBoth(me.stage) && id == me.dst))
  }

  ghost predicate NodesOk(s: State, me: Process) {
    && (InTransaction(me.stage) ==> Valid(s, me.request))
    && (HasSrc(me.stage) ==> HasNode(s, me, me.src, me.request.src))
    && (HasBoth(me.stage) ==> HasNode(s, me, me.dst, me.request.dst))
  }

  /** The row about to be committed follows the one that is there. */
  ghost predicate PendingOk(s: State, p: Pid, me: Process) {
    var key := KeyOf(me);
    && key in s.rowClaims && s.rowClaims[key] == p && me.row.env == me.request.env
    && me.row.version == if key in s.relations then s.relations[key].version + 1 else 1
  }

  ghost predicate LockOk(s: State, p: Pid, me: Process) {
    && (HoldsDepLock(me) ==> me.request.env in s.depLocks && s.depLocks[me.request.env] == p)
    && (HasChecked(me) ==> !Reaches(Dependencies(s, me.request.env), me.request.dst.id, me.request.src.id))
  }

  ghost predicate ProcessOk(s: State, p: Pid, me: Process) {
    && NodesOk(s, me) && (me.stage.Pending? ==> PendingOk(s, p, me)) && LockOk(s, p, me)
    && (forall id {:trigger MineOk(s, p, me, id)} :: id in me.mine ==> MineOk(s, p, me, id))
    && (me.stage.Unchanged? ==> me.mine == map[])
  }

  ghost predicate DepLockOk(s: State, env: nat)
    requires env in s.depLocks
  {
    var p := s.depLocks[env];
    p < |s.processes| && HoldsDepLock(s.processes[p]) && s.processes[p].request.env == env
  }

  ghost predicate NodeClaimOk(s: State, r: Record)
    requires r in s.nodeClaims
  {
    var p := s.nodeClaims[r];
    p < |s.processes| && exists id :: id in s.processes[p].mine && s.processes[p].mine[id] == r
  }

  ghost predicate RowClaimOk(s: State, k: Key)
    requires k in s.rowClaims
  {
    var p := s.rowClaims[k];
    p < |s.processes| && s.processes[p].stage.Pending? && KeyOf(s.processes[p]) == k
  }

  /** A relation joins existing nodes of its own environment. */
  ghost predicate RelationOk(s: State, k: Key)
    requires k in s.relations
  {
    && s.relations[k].version >= 1 && k.src in s.nodes && k.dst in s.nodes
    && s.nodes[k.src] in s.homes && s.homes[s.nodes[k.src]] == s.relations[k].env
    && s.nodes[k.dst] in s.homes && s.homes[s.nodes[k.dst]] == s.relations[k].env
    && (k.relation == DEPENDS_ON ==> s.nodes[k.src].kind.TaskRecord? && s.nodes[k.dst].kind.TaskRecord?)
  }

  /** Events 1 to the version of the row, the last one with its properties. */
  ghost predicate EventsOk(s: State, k: Key)
    requires k in s.relations
  {
    && (forall v: nat :: 1 <= v <= s.relations[k].version ==> EventKey(k, v) in s.outbox)
    && EventKey(k, s.relations[k].version) in s.outbox
    && s.outbox[EventKey(k, s.relations[k].version)] == s.relations[k].properties
  }

  ghost predicate EventOk(s: State, e: EventKey) {
    e.key in s.relations && 1 <= e.version <= s.relations[e.key].version
  }

  ghost predicate NodesUnique(s: State) {
    forall a, b :: a in s.nodes && b in s.nodes && s.nodes[a] == s.nodes[b] ==> a == b
  }

  ghost predicate MineApart(a: Process, b: Process) {
    forall id :: id in a.mine ==> id !in b.mine
  }

  ghost predicate AcyclicIn(s: State, env: nat) {
    Acyclic(Dependencies(s, env))
  }

  ghost predicate TablesOk(s: State) {
    && NodesUnique(s) && (forall id :: id in s.nodes ==> id in s.issued)
    && (forall k {:trigger RelationOk(s, k)} :: k in s.relations ==> RelationOk(s, k))
    && (forall k {:trigger EventsOk(s, k)} :: k in s.relations ==> EventsOk(s, k))
    && (forall e {:trigger EventOk(s, e)} :: e in s.outbox ==> EventOk(s, e))
    && (forall env {:trigger AcyclicIn(s, env)} :: AcyclicIn(s, env))
  }

  ghost predicate LocksOk(s: State) {
    && (forall env {:trigger DepLockOk(s, env)} :: env in s.depLocks ==> DepLockOk(s, env))
    && (forall r {:trigger NodeClaimOk(s, r)} :: r in s.nodeClaims ==> NodeClaimOk(s, r))
    && (forall k {:trigger RowClaimOk(s, k)} :: k in s.rowClaims ==> RowClaimOk(s, k))
  }

  ghost predicate Inv(s: State) {
    && TablesOk(s) && LocksOk(s)
    && (forall p: Pid {:trigger OkAt(s, p)} :: p < |s.processes| ==> OkAt(s, p))
    && (forall p: Pid, q: Pid {:trigger ApartAt(s, p, q)} :: p < |s.processes| && q < |s.processes| && p != q ==>
        ApartAt(s, p, q))
  }

  ghost predicate OkAt(s: State, p: Pid)
    requires p < |s.processes|
  {
    ProcessOk(s, p, s.processes[p])
  }

  ghost predicate ApartAt(s: State, p: Pid, q: Pid)
    requires p < |s.processes| && q < |s.processes|
  {
    MineApart(s.processes[p], s.processes[q])
  }

  // ------------------------------------------------------------ steps that write no table

  ghost predicate SameTables(s: State, t: State) {
    t.homes == s.homes && t.nodes == s.nodes && t.relations == s.relations && t.outbox == s.outbox
      && s.issued <= t.issued
  }

  lemma SameDependencies(s: State, t: State, env: nat)
    requires t.nodes == s.nodes && t.relations == s.relations
    ensures Dependencies(t, env) == Dependencies(s, env)
  {
    forall k | k in s.relations ensures Counts(t, env, k) == Counts(s, env, k) {}
  }

  lemma TablesStay(s: State, t: State)
    requires TablesOk(s) && SameTables(s, t)
    ensures TablesOk(t)
  {
    forall k | k in t.relations ensures RelationOk(t, k) && EventsOk(t, k) {
      assert RelationOk(s, k) && EventsOk(s, k);
    }
    forall e | e in t.outbox ensures EventOk(t, e) { assert EventOk(s, e); }
    forall env ensures AcyclicIn(t, env) {
      assert AcyclicIn(s, env);
      SameDependencies(s, t, env);
    }
  }

  /** Every other process is as it was, with what it holds. */
  ghost predicate OthersStay(s: State, t: State, p: Pid) {
    && |t.processes| == |s.processes|
    && (forall q: Pid :: q < |s.processes| && q != p ==> t.processes[q] == s.processes[q])
    && (forall e :: e in s.depLocks && s.depLocks[e] != p ==> e in t.depLocks && t.depLocks[e] == s.depLocks[e])
    && (forall r :: r in s.nodeClaims && s.nodeClaims[r] != p ==>
        r in t.nodeClaims && t.nodeClaims[r] == s.nodeClaims[r])
    && (forall k :: k in s.rowClaims && s.rowClaims[k] != p ==> k in t.rowClaims && t.rowClaims[k] == s.rowClaims[k])
  }

  lemma OtherOk(s: State, t: State, p: Pid, q: Pid)
    requires Inv(s) && SameTables(s, t) && OthersStay(s, t, p) && q < |s.processes| && q != p
    ensures OkAt(t, q)
  {
    var you := s.processes[q];
    assert OkAt(s, q);
    forall id | id in you.mine ensures MineOk(t, q, you, id) { assert MineOk(s, q, you, id); }
    SameDependencies(s, t, you.request.env);
  }

  /** A step that writes no table keeps the invariant if it does for its own process and locks. */
  lemma QuietStep(s: State, t: State, p: Pid)
    requires Inv(s) && SameTables(s, t) && OthersStay(s, t, p) && p < |s.processes|
    requires OkAt(t, p) && LocksOk(t)
    requires forall id :: id in t.processes[p].mine ==> id in s.processes[p].mine || id !in s.issued
    ensures Inv(t)
  {
    TablesStay(s, t);
    forall q: Pid | q < |t.processes| ensures OkAt(t, q) { if q != p { OtherOk(s, t, p, q); } }
    forall a: Pid, b: Pid | a < |t.processes| && b < |t.processes| && a != b ensures ApartAt(t, a, b) {
      assert ApartAt(s, a, b);
      MineIssued(s, a);
      MineIssued(s, b);
    }
  }

  lemma MineIssued(s: State, p: Pid)
    requires Inv(s) && p < |s.processes|
    ensures forall id :: id in s.processes[p].mine ==> id in s.issued
  {
    assert OkAt(s, p);
    forall id | id in s.processes[p].mine ensures id in s.issued { assert MineOk(s, p, s.processes[p], id); }
  }

  lemma FinishLocks(s: State, p: Pid, t: State)
    requires LocksOk(s) && p < |s.processes| && |t.processes| == |s.processes|
    requires t.depLocks == Without(s.depLocks, p) && t.nodeClaims == Without(s.nodeClaims, p)
             && t.rowClaims == Without(s.rowClaims, p)
    requires forall q: Pid :: q < |s.processes| && q != p ==> t.processes[q] == s.processes[q]
    ensures LocksOk(t)
  {
    forall e | e in t.depLocks ensures DepLockOk(t, e) { assert DepLockOk(s, e); }
    forall r | r in t.nodeClaims ensures NodeClaimOk(t, r) { assert NodeClaimOk(s, r); }
    forall k | k in t.rowClaims ensures RowClaimOk(t, k) { assert RowClaimOk(s, k); }
  }

  lemma FinishKeeps(s: State, p: Pid, stage: Stage)
    requires Inv(s) && p < |s.processes| && (stage.Raised? || stage.Replied?)
    ensures Inv(Finished(s, p, stage))
  {
    var t := Finished(s, p, stage);
    FinishLocks(s, p, t);
    QuietStep(s, t, p);
  }

  /** A transaction going on keeps the nodes it has and what it inserted. */
  ghost predicate GoesOn(before: Process, after: Process) {
    && after.request == before.request && after.mine == before.mine && InTransaction(after.stage)
    && (HasSrc(before.stage) ==> HasSrc(after.stage) && after.src == before.src)
    && (HasBoth(before.stage) ==> HasBoth(after.stage) && after.dst == before.dst)
  }

  lemma MineMoves(s: State, t: State, p: Pid, before: Process, after: Process)
    requires GoesOn(before, after) && SameTables(s, t)
    requires forall r :: r in s.nodeClaims && s.nodeClaims[r] == p ==> r in t.nodeClaims && t.nodeClaims[r] == p
    requires forall id {:trigger MineOk(s, p, before, id)} :: id in before.mine ==> MineOk(s, p, before, id)
    ensures forall id {:trigger MineOk(t, p, after, id)} :: id in after.mine ==> MineOk(t, p, after, id)
  {
    forall id | id in after.mine ensures MineOk(t, p, after, id) { assert MineOk(s, p, before, id); }
  }

  /** Locks after a step that may add one of each kind for the process itself. */
  lemma MoveLocks(s: State, t: State, p: Pid)
    requires LocksOk(s) && OthersStay(s, t, p) && p < |s.processes|
    requires forall e :: e in t.depLocks && e !in s.depLocks ==> DepLockOk(t, e)
    requires forall r :: r in t.nodeClaims && r !in s.nodeClaims ==> NodeClaimOk(t, r)
    requires forall k :: k in t.rowClaims && k !in s.rowClaims ==> RowClaimOk(t, k)
    requires forall e :: e in s.depLocks && e in t.depLocks ==> t.depLocks[e] == s.depLocks[e]
    requires forall r :: r in s.nodeClaims && r in t.nodeClaims ==> t.nodeClaims[r] == s.nodeClaims[r]
    requires forall k :: k in s.rowClaims && k in t.rowClaims ==> t.rowClaims[k] == s.rowClaims[k]
    requires t.processes[p].request == s.processes[p].request && !s.processes[p].stage.Pending?
    requires HoldsDepLock(s.processes[p]) ==> HoldsDepLock(t.processes[p])
    requires forall id :: id in s.processes[p].mine ==>
               id in t.processes[p].mine && t.processes[p].mine[id] == s.processes[p].mine[id]
    ensures LocksOk(t)
  {
    forall e | e in t.depLocks ensures DepLockOk(t, e) { if e in s.depLocks { assert DepLockOk(s, e); } }
    forall r | r in t.nodeClaims ensures NodeClaimOk(t, r) { if r in s.nodeClaims { ClaimStays(s, t, p, r); } }
    forall k | k in t.rowClaims ensures RowClaimOk(t, k) { if k in s.rowClaims { assert RowClaimOk(s, k); } }
  }

  lemma ClaimStays(s: State, t: State, p: Pid, r: Record)
    requires LocksOk(s) && OthersStay(s, t, p) && p < |s.processes| && r in s.nodeClaims && r in t.nodeClaims
             && t.nodeClaims[r] == s.nodeClaims[r]
    requires forall id :: id in s.processes[p].mine ==>
               id in t.processes[p].mine && t.processes[p].mine[id] == s.processes[p].mine[id]
    ensures NodeClaimOk(t, r)
  {
    assert NodeClaimOk(s, r);
    var id :| id in s.processes[s.nodeClaims[r]].mine && s.processes[s.nodeClaims[r]].mine[id] == r;
    assert id in t.processes[t.nodeClaims[r]].mine;
  }

  // ------------------------------------------------------------ step by step

  /** A process moving on without a new lock. */
  lemma MoveKeeps(s: State, p: Pid, after: Process)
    requires Inv(s) && p < |s.processes| && GoesOn(s.processes[p], after)
    requires !s.processes[p].stage.Pending? && !after.stage.Pending?
    requires HoldsDepLock(after) <==> HoldsDepLock(s.processes[p])
    requires NodesOk(s, after) && (after.stage.Unchanged? ==> after.mine == map[])
    requires HasChecked(after) ==>
               !Reaches(Dependencies(s, after.request.env), after.request.dst.id, after.request.src.id)
    ensures Inv(With(s, p, after))
  {
    var t := With(s, p, after);
    assert OkAt(s, p);
    MineMoves(s, t, p, s.processes[p], after);
    SameDependencies(s, t, after.request.env);
    MoveLocks(s, t, p);
    QuietStep(s, t, p);
  }

  lemma FindKeeps(s: State, p: Pid, hit: Option<Id>)
    requires Inv(s) && Enabled(s, p, FindNode(hit))
    ensures Inv(Perform(s, p, FindNode(hit)))
  {
    var me := s.processes[p];
    assert OkAt(s, p);
    if me.stage.Idle? && !Valid(s, me.request) { FinishKeeps(s, p, Raised); }
    else { MoveKeeps(s, p, if hit.Some? then FoundNode(me, hit.value) else MissedNode(me)); }
  }

  lemma LostInsertKeeps(s: State, p: Pid, id: Id)
    requires Inv(s) && Enabled(s, p, InsertNode(id)) && NodeOf(s, id, Wanted(s.processes[p]))
    ensures Inv(Perform(s, p, InsertNode(id)))
  {
    assert OkAt(s, p);
    if s.processes[p].request.caller.TaskCall? {
      FinishKeeps(s, p, Raised);
    } else {
      MoveKeeps(s, p, FoundNode(s.processes[p], id));
    }
  }

  lemma InsertedOk(s: State, p: Pid, id: Id)
    requires Inv(s) && Enabled(s, p, InsertNode(id)) && !NodeOf(s, id, Wanted(s.processes[p]))
    ensures OkAt(Inserted(s, p, id), p)
  {
    var me, t := s.processes[p], Inserted(s, p, id);
    var now := t.processes[p];
    assert OkAt(s, p);
    MineIssued(s, p);
    forall n | n in now.mine ensures MineOk(t, p, now, n) { if n != id { assert MineOk(s, p, me, n); } }
  }

  lemma InsertedLocks(s: State, p: Pid, id: Id)
    requires Inv(s) && Enabled(s, p, InsertNode(id)) && !NodeOf(s, id, Wanted(s.processes[p]))
    ensures LocksOk(Inserted(s, p, id))
  {
    var t := Inserted(s, p, id);
    MineIssued(s, p);
    assert t.processes[p].mine[id] == Wanted(s.processes[p]);
    MoveLocks(s, t, p);
  }

  lemma WonInsertKeeps(s: State, p: Pid, id: Id)
    requires Inv(s) && Enabled(s, p, InsertNode(id)) && !NodeOf(s, id, Wanted(s.processes[p]))
    ensures Inv(Inserted(s, p, id))
  {
    InsertedOk(s, p, id);
    InsertedLocks(s, p, id);
    QuietStep(s, Inserted(s, p, id), p);
  }

  lemma TakeLockKeeps(s: State, p: Pid)
    requires Inv(s) && Enabled(s, p, TakeLock)
    ensures Inv(Perform(s, p, TakeLock))
  {
    var me, t := s.processes[p], Perform(s, p, TakeLock);
    assert OkAt(s, p);
    MineMoves(s, t, p, me, t.processes[p]);
    MoveLocks(s, t, p);
    QuietStep(s, t, p);
  }

  lemma CheckKeeps(s: State, p: Pid, cycle: bool)
    requires Inv(s) && Enabled(s, p, CheckCycle(cycle)) && Sound(s, p, CheckCycle(cycle))
    ensures Inv(Perform(s, p, CheckCycle(cycle)))
  {
    assert OkAt(s, p);
    if cycle { FinishKeeps(s, p, Raised); } else { MoveKeeps(s, p, s.processes[p].(stage := Checked)); }
  }

  /** If the relation is there both nodes are committed ones, and it is in their environment. */
  lemma ExistingHasNodes(s: State, p: Pid)
    requires Inv(s) && p < |s.processes| && HasBoth(s.processes[p].stage) && KeyOf(s.processes[p]) in s.relations
    ensures s.processes[p].mine == map[]
    ensures s.relations[KeyOf(s.processes[p])].env == s.processes[p].request.env
  {
    var me := s.processes[p];
    assert OkAt(s, p) && RelationOk(s, KeyOf(me));
    forall id | id in me.mine ensures id !in s.nodes && (id == me.src || id == me.dst) { assert MineOk(s, p, me, id); }
    assert me.mine.Keys == {};
  }

  lemma ReadKeeps(s: State, p: Pid)
    requires Inv(s) && Enabled(s, p, ReadRow)
    ensures Inv(Decide(s, p))
  {
    var me := s.processes[p];
    var key := KeyOf(me);
    assert OkAt(s, p);
    if Decision(s, me).Raised? { FinishKeeps(s, p, Raised); }
    else {
      if key in s.relations { ExistingHasNodes(s, p); }
      MoveKeeps(s, p, me.(stage := Decision(s, me), row := if key in s.relations then s.relations[key] else me.row));
    }
  }

  lemma WroteKeeps(s: State, p: Pid, row: Relation)
    requires Inv(s) && p < |s.processes| && (s.processes[p].stage.ToInsert? || s.processes[p].stage.ToUpdate?)
    requires KeyOf(s.processes[p]) !in s.rowClaims && row.env == s.processes[p].request.env
    requires row.version == if KeyOf(s.processes[p]) in s.relations then s.relations[KeyOf(s.processes[p])].version + 1
             else 1
    ensures Inv(Wrote(s, p, row))
  {
    var me, t := s.processes[p], Wrote(s, p, row);
    assert OkAt(s, p);
    MineMoves(s, t, p, me, t.processes[p]);
    SameDependencies(s, t, me.request.env);
    WroteLocks(s, p, row);
    QuietStep(s, t, p);
  }

  lemma WroteLocks(s: State, p: Pid, row: Relation)
    requires LocksOk(s) && p < |s.processes| && (s.processes[p].stage.ToInsert? || s.processes[p].stage.ToUpdate?)
    requires KeyOf(s.processes[p]) !in s.rowClaims
    ensures LocksOk(Wrote(s, p, row))
  {
    MoveLocks(s, Wrote(s, p, row), p);
  }

  lemma WriteKeeps(s: State, p: Pid)
    requires Inv(s) && Enabled(s, p, WriteRow)
    ensures Inv(Apply(s, p))
  {
    var me := s.processes[p];
    var key := KeyOf(me);
    if me.stage.ToInsert? {
      if key in s.relations { FinishKeeps(s, p, Raised); }
      else { WroteKeeps(s, p, Relation(me.request.env, 1, me.request.properties)); }
    } else if key !in s.relations || s.relations[key].version != me.row.version { FinishKeeps(s, p, Raised); }
    else {
      ExistingHasNodes(s, p);
      WroteKeeps(s, p, s.relations[key].(version := me.row.version + 1, properties := me.request.properties));
    }
  }

  // ------------------------------------------------------------ the commit

  lemma MineNew(s: State, p: Pid)
    requires Inv(s) && p < |s.processes|
    ensures forall id :: id in s.processes[p].mine ==> id !in s.nodes && id in s.issued
    ensures forall id :: id in s.processes[p].mine ==> id == s.processes[p].src || id == s.processes[p].dst
    ensures forall id, n :: id in s.processes[p].mine && n in s.nodes ==> s.nodes[n] != s.processes[p].mine[id]
  {
    var me := s.processes[p];
    assert OkAt(s, p);
    forall id | id in me.mine
      ensures id !in s.nodes && id in s.issued && (id == me.src || id == me.dst)
      ensures forall n :: n in s.nodes ==> s.nodes[n] != me.mine[id]
    {
      assert MineOk(s, p, me, id);
    }
  }

  lemma NewNodes(s: State, p: Pid)
    requires Inv(s) && p < |s.processes| && s.processes[p].stage.Pending?
    ensures forall id :: id in s.nodes ==> Publish(s, p).nodes[id] == s.nodes[id]
    ensures NodeOf(Publish(s, p), s.processes[p].src, s.processes[p].request.src)
    ensures NodeOf(Publish(s, p), s.processes[p].dst, s.processes[p].request.dst)
  {
    assert OkAt(s, p);
    MineNew(s, p);
  }

  lemma NewNodesUnique(s: State, p: Pid)
    requires Inv(s) && p < |s.processes| && s.processes[p].stage.Pending?
    ensures NodesUnique(Publish(s, p)) && forall id :: id in Publish(s, p).nodes ==> id in s.issued
  {
    assert OkAt(s, p);
    MineNew(s, p);
  }

  lemma NewRelations(s: State, p: Pid)
    requires Inv(s) && p < |s.processes| && s.processes[p].stage.Pending?
    ensures forall k :: k in Publish(s, p).relations ==> RelationOk(Publish(s, p), k)
  {
    var t, key := Publish(s, p), KeyOf(s.processes[p]);
    NewNodes(s, p);
    assert OkAt(s, p);
    forall k | k in t.relations ensures RelationOk(t, k) { if k in s.relations { assert RelationOk(s, k); } }
  }

  lemma NewVersionUnused(s: State, p: Pid)
    requires Inv(s) && p < |s.processes| && s.processes[p].stage.Pending?
    ensures s.processes[p].row.version >= 1 && EventKey(KeyOf(s.processes[p]), s.processes[p].row.version) !in s.outbox
  {
    var key := KeyOf(s.processes[p]);
    assert OkAt(s, p);
    assert forall e :: e in s.outbox ==> EventOk(s, e);
    assert key in s.relations ==> RelationOk(s, key);
  }

  lemma NewEvents(s: State, p: Pid)
    requires Inv(s) && p < |s.processes| && s.processes[p].stage.Pending?
    ensures forall k :: k in Publish(s, p).relations ==> EventsOk(Publish(s, p), k)
    ensures forall e :: e in Publish(s, p).outbox ==> EventOk(Publish(s, p), e)
    ensures EventKey(KeyOf(s.processes[p]), s.processes[p].row.version) !in s.outbox
  {
    var t, key := Publish(s, p), KeyOf(s.processes[p]);
    assert OkAt(s, p);
    NewVersionUnused(s, p);
    forall k | k in t.relations ensures EventsOk(t, k) { if k in s.relations { assert EventsOk(s, k); } }
    forall e | e in t.outbox ensures EventOk(t, e) { if e in s.outbox { assert EventOk(s, e); } }
  }

  /** What a commit adds to the dependencies of an environment. */
  ghost function AddedEdge(me: Process, env: nat): Edges {
    if me.request.relation == DEPENDS_ON && me.request.env == env then {(me.request.src.id, me.request.dst.id)} else {}
  }

  lemma NewDependencies(s: State, p: Pid, env: nat)
    requires Inv(s) && p < |s.processes| && s.processes[p].stage.Pending?
    ensures Dependencies(Publish(s, p), env) == Dependencies(s, env) + AddedEdge(s.processes[p], env)
  {
    var me, t := s.processes[p], Publish(s, p);
    var key := KeyOf(me);
    NewNodes(s, p);
    assert OkAt(s, p);
    if key in s.relations { ExistingHasNodes(s, p); }
    forall k | k in s.relations ensures Counts(t, env, k) == Counts(s, env, k) { assert RelationOk(s, k); }
    forall k | k in s.relations && Counts(s, env, k)
      ensures t.nodes[k.src] == s.nodes[k.src] && t.nodes[k.dst] == s.nodes[k.dst]
    {}
    assert Counts(t, env, key) <==> AddedEdge(me, env) != {};
    assert (t.nodes[key.src].id, t.nodes[key.dst].id) == (me.request.src.id, me.request.dst.id);
    EdgesOf(s, t, env, key);
  }

  lemma EdgesOf(s: State, t: State, env: nat, key: Key)
    requires key in t.relations && t.relations.Keys == s.relations.Keys + {key}
    requires forall k :: k in s.relations ==> Counts(t, env, k) == Counts(s, env, k)
    requires forall k :: k in s.relations && Counts(s, env, k) && Counts(t, env, k) ==>
               t.nodes[k.src] == s.nodes[k.src] && t.nodes[k.dst] == s.nodes[k.dst]
    ensures Dependencies(t, env) ==
            Dependencies(s, env) + if Counts(t, env, key) then {(t.nodes[key.src].id, t.nodes[key.dst].id)} else {}
  {
    var all := Dependencies(s, env) + if Counts(t, env, key) then {(t.nodes[key.src].id, t.nodes[key.dst].id)} else {};
    forall e | e in Dependencies(t, env) ensures e in all {
      var k :| k in t.relations && Counts(t, env, k) && e == (t.nodes[k.src].id, t.nodes[k.dst].id);
      assert k == key || k in s.relations;
    }
    forall e | e in Dependencies(s, env) ensures e in Dependencies(t, env) {
      var k :| k in s.relations && Counts(s, env, k) && e == (s.nodes[k.src].id, s.nodes[k.dst].id);
      assert Counts(t, env, k);
    }
  }

  /** The lock held to the commit is what keeps the graph acyclic: the check still holds. */
  lemma CommitKeepsAcyclic(s: State, p: Pid, env: nat)
    requires Inv(s) && p < |s.processes| && s.processes[p].stage.Pending?
    ensures AcyclicIn(Publish(s, p), env)
  {
    var me := s.processes[p];
    assert OkAt(s, p) && AcyclicIn(s, env);
    NewDependencies(s, p, env);
    if AddedEdge(me, env) != {} { CheckedEdgeKeepsAcyclic(Dependencies(s, env), me.request.src.id, me.request.dst.id); }
    else { assert Dependencies(s, env) + {} == Dependencies(s, env); }
  }

  lemma CommitOtherMine(s: State, p: Pid, q: Pid, id: Id)
    requires Inv(s) && p < |s.processes| && s.processes[p].stage.Pending? && q < |s.processes| && q != p
    requires id in s.processes[q].mine
    ensures MineOk(Publish(s, p), q, s.processes[q], id)
  {
    var me, you, t := s.processes[p], s.processes[q], Publish(s, p);
    assert OkAt(s, p) && OkAt(s, q) && MineOk(s, q, you, id) && ApartAt(s, p, q);
    forall n | n in t.nodes ensures t.nodes[n] != you.mine[id] { if n in me.mine { assert MineOk(s, p, me, n); } }
  }

  lemma CommitOther(s: State, p: Pid, q: Pid)
    requires Inv(s) && p < |s.processes| && s.processes[p].stage.Pending? && q < |s.processes| && q != p
    ensures OkAt(Publish(s, p), q)
  {
    var you, t := s.processes[q], Publish(s, p);
    assert OkAt(s, p) && OkAt(s, q);
    NewNodes(s, p);
    CommitOtherLock(s, p, q);
    forall id | id in you.mine ensures MineOk(t, q, you, id) { CommitOtherMine(s, p, q, id); }
  }

  lemma CommitOtherLock(s: State, p: Pid, q: Pid)
    requires Inv(s) && p < |s.processes| && s.processes[p].stage.Pending? && q < |s.processes| && q != p
    ensures LockOk(Publish(s, p), q, s.processes[q])
  {
    var env := s.processes[q].request.env;
    assert OkAt(s, p) && OkAt(s, q);
    NewDependencies(s, p, env);
    assert Dependencies(s, env) + {} == Dependencies(s, env);
  }

  lemma PublishedTables(s: State, p: Pid)
    requires Inv(s) && p < |s.processes| && s.processes[p].stage.Pending?
    ensures TablesOk(Publish(s, p))
  {
    NewNodesUnique(s, p);
    NewRelations(s, p);
    NewEvents(s, p);
    forall env ensures AcyclicIn(Publish(s, p), env) { CommitKeepsAcyclic(s, p, env); }
  }

  lemma PublishKeeps(s: State, p: Pid)
    requires Inv(s) && p < |s.processes| && s.processes[p].stage.Pending?
    ensures Inv(Publish(s, p))
  {
    var t := Publish(s, p);
    PublishedTables(s, p);
    FinishLocks(s, p, t);
    forall q: Pid | q < |t.processes| ensures OkAt(t, q) { if q != p { CommitOther(s, p, q); } }
    forall a: Pid, b: Pid | a < |t.processes| && b < |t.processes| && a != b ensures ApartAt(t, a, b) {
      assert ApartAt(s, a, b);
    }
  }

  /** Every step of every process keeps the invariant. */
  lemma StepKeeps(s: State, p: Pid, a: Action)
    requires Inv(s) && Enabled(s, p, a) && Sound(s, p, a)
    ensures Inv(Perform(s, p, a))
  {
    match a
    case FindNode(hit) => FindKeeps(s, p, hit);
    case InsertNode(id) =>
      if NodeOf(s, id, Wanted(s.processes[p])) { LostInsertKeeps(s, p, id); } else { WonInsertKeeps(s, p, id); }
    case TakeLock => TakeLockKeeps(s, p);
    case CheckCycle(cycle) => CheckKeeps(s, p, cycle);
    case ReadRow => ReadKeeps(s, p);
    case WriteRow => WriteKeeps(s, p);
    case Commit =>
      if s.processes[p].stage.Pending? { PublishKeeps(s, p); }
      else {
        UnchangedCommit(s, p);
        FinishKeeps(s, p, Replied);
      }
    case Abort => FinishKeeps(s, p, Raised);
  }

  // ------------------------------------------------------------ runs

  /** A transaction that found nothing to do commits nothing: no node, row, version or event. */
  lemma UnchangedCommit(s: State, p: Pid)
    requires Inv(s) && p < |s.processes| && s.processes[p].stage.Unchanged?
    ensures Perform(s, p, Commit) == Finished(s, p, Replied) && SameTables(s, Perform(s, p, Commit))
  {
    assert OkAt(s, p);
    assert s.nodes + map[] == s.nodes;
  }

  datatype Move = Move(p: Pid, action: Action)

  ghost predicate Run(states: seq<State>, moves: seq<Move>) {
    && |states| == |moves| + 1
    && forall i :: 0 <= i < |moves| ==> StepAt(states[i], moves[i], states[i + 1])
  }

  ghost predicate StepAt(s: State, m: Move, t: State) {
    Enabled(s, m.p, m.action) && Sound(s, m.p, m.action) && t == Perform(s, m.p, m.action)
  }

  /** Transactions not begun over committed tables that are in order. */
  ghost predicate Initial(s: State) {
    && TablesOk(s) && s.depLocks == map[] && s.nodeClaims == map[] && s.rowClaims == map[]
    && forall p: Pid :: p < |s.processes| ==> s.processes[p].stage.Idle? && s.processes[p].mine == map[]
  }

  lemma {:induction false} RunKeeps(states: seq<State>, moves: seq<Move>, i: nat)
    requires Run(states, moves) && Initial(states[0]) && i < |states|
    ensures Inv(states[i])
  {
    if i > 0 {
      RunKeeps(states, moves, i - 1);
      assert StepAt(states[i - 1], moves[i - 1], states[i]);
      StepKeeps(states[i - 1], moves[i - 1].p, moves[i - 1].action);
    }
  }

  lemma QuietForms(s: State, p: Pid, me: Process, stage: Stage, id: Id, row: Relation)
    requires p < |s.processes|
    ensures SameTables(s, With(s, p, me)) && SameTables(s, Finished(s, p, stage))
    ensures SameTables(s, Inserted(s, p, id)) && SameTables(s, Wrote(s, p, row))
  {}

  lemma QuietDecide(s: State, p: Pid)
    requires p < |s.processes|
    ensures SameTables(s, Decide(s, p))
  {
    var me := s.processes[p];
    var key := KeyOf(me);
    QuietForms(s, p, me.(stage := Decision(s, me), row := if key in s.relations then s.relations[key] else me.row),
               Raised, 0, me.row);
  }

  lemma QuietApply(s: State, p: Pid)
    requires p < |s.processes|
    ensures SameTables(s, Apply(s, p))
  {
    var me := s.processes[p];
    var key := KeyOf(me);
    if me.stage.ToInsert? { QuietForms(s, p, me, Raised, 0, Relation(me.request.env, 1, me.request.properties)); }
    else if key in s.relations {
      QuietForms(s, p, me, Raised, 0,
                 s.relations[key].(version := me.row.version + 1, properties := me.request.properties));
    } else {
      QuietForms(s, p, me, Raised, 0, me.row);
    }
  }

  /** Only a commit changes what others see. */
  lemma OnlyCommitWrites(s: State, p: Pid, a: Action)
    requires Enabled(s, p, a) && !a.Commit?
    ensures SameTables(s, Perform(s, p, a))
  {
    var me := s.processes[p];
    match a
    case FindNode(hit) =>
      QuietForms(s, p, if hit.Some? then FoundNode(me, hit.value) else MissedNode(me), Raised, 0, me.row);
    case InsertNode(id) => QuietForms(s, p, FoundNode(me, id), Raised, id, me.row);
    case TakeLock => QuietForms(s, p, me.(stage := DepLocked), Raised, 0, me.row);
    case CheckCycle(cycle) => QuietForms(s, p, me.(stage := Checked), Raised, 0, me.row);
    case ReadRow => QuietDecide(s, p);
    case WriteRow => QuietApply(s, p);
    case Abort => QuietForms(s, p, me, Raised, 0, me.row);
  }

  /** A commit with something to write adds one version to one relation and announces it, under an
      event key not used before. */
  lemma CommitWritesOneVersion(s: State, p: Pid)
    requires Inv(s) && p < |s.processes| && s.processes[p].stage.Pending?
    ensures var t, me := Perform(s, p, Commit), s.processes[p];
            var key := KeyOf(me);
            && key in t.relations && t.relations[key] == me.row
            && me.row.version == (if key in s.relations then s.relations[key].version + 1 else 1)
            && (forall k :: k != key ==>
                (k in t.relations <==> k in s.relations) && (k in s.relations ==> t.relations[k] == s.relations[k]))
            && EventKey(key, me.row.version) !in s.outbox
            && t.outbox == s.outbox[EventKey(key, me.row.version) := me.row.properties]
  {
    assert OkAt(s, p);
    NewEvents(s, p);
  }

  /** The relation is there already and the request has nothing to add to it. */
  predicate Agrees(s: State, me: Process) {
    && KeyOf(me) in s.relations
    && var row := s.relations[KeyOf(me)];
       me.request.caller.TaskCall? ||
       (row.properties == me.request.properties
        && (me.request.expected.None? || me.request.expected.value == row.version))
  }

  /** Linking again decides to write nothing exactly when the relation there agrees with the
      request; no node has been inserted by then. */
  lemma RelinkDecidesNothing(s: State, p: Pid)
    requires Inv(s) && Enabled(s, p, ReadRow) && KeyOf(s.processes[p]) in s.relations
    ensures Perform(s, p, ReadRow) == Decide(s, p) && |Decide(s, p).processes| == |s.processes|
    ensures Decide(s, p).processes[p].stage.Unchanged? <==> Agrees(s, s.processes[p])
    ensures s.processes[p].mine == map[]
  {
    ExistingHasNodes(s, p);
    DecisionAt(s, p);
  }

  lemma DecisionAt(s: State, p: Pid)
    requires p < |s.processes|
    ensures |Decide(s, p).processes| == |s.processes| && Decide(s, p).processes[p].stage == Decision(s, s.processes[p])
  {}

  predicate Over(stage: Stage) {
    stage.Replied? || stage.Raised?
  }

  ghost predicate OnlyMoves(s: State, t: State, p: Pid) {
    |t.processes| == |s.processes| && forall q: Pid :: q < |s.processes| && q != p ==> t.processes[q] == s.processes[q]
  }

  lemma MovingForms(s: State, p: Pid, me: Process, stage: Stage, id: Id, row: Relation)
    requires p < |s.processes|
    ensures OnlyMoves(s, With(s, p, me), p) && OnlyMoves(s, Finished(s, p, stage), p)
    ensures OnlyMoves(s, Inserted(s, p, id), p) && OnlyMoves(s, Wrote(s, p, row), p) && OnlyMoves(s, Publish(s, p), p)
    ensures OnlyMoves(s, Finished(s.(nodes := s.nodes + s.processes[p].mine), p, Replied), p)
  {}

  lemma ReadMoves(s: State, p: Pid)
    requires p < |s.processes|
    ensures OnlyMoves(s, Decide(s, p), p)
  {
    var me, key := s.processes[p], KeyOf(s.processes[p]);
    MovingForms(s, p, me.(stage := Decision(s, me), row := if key in s.relations then s.relations[key] else me.row),
                Raised, 0, me.row);
  }

  lemma WriteMoves(s: State, p: Pid)
    requires p < |s.processes|
    ensures OnlyMoves(s, Apply(s, p), p)
  {
    var me, key := s.processes[p], KeyOf(s.processes[p]);
    if me.stage.ToInsert? { MovingForms(s, p, me, Raised, 0, Relation(me.request.env, 1, me.request.properties)); }
    else if key in s.relations {
      MovingForms(s, p, me, Raised, 0,
                  s.relations[key].(version := me.row.version + 1, properties := me.request.properties));
    } else {
      MovingForms(s, p, me, Raised, 0, me.row);
    }
  }

  /** A step moves its own process only. */
  lemma StepOf(s: State, p: Pid, a: Action)
    requires Enabled(s, p, a)
    ensures OnlyMoves(s, Perform(s, p, a), p) && !Over(s.processes[p].stage)
  {
    var me := s.processes[p];
    match a
    case FindNode(hit) =>
      MovingForms(s, p, if hit.Some? then FoundNode(me, hit.value) else MissedNode(me), Raised, 0, me.row);
    case InsertNode(id) => MovingForms(s, p, FoundNode(me, id), Raised, id, me.row);
    case TakeLock => MovingForms(s, p, me.(stage := DepLocked), Raised, 0, me.row);
    case CheckCycle(cycle) => MovingForms(s, p, me.(stage := Checked), Raised, 0, me.row);
    case ReadRow => ReadMoves(s, p);
    case WriteRow => WriteMoves(s, p);
    case Commit => MovingForms(s, p, me, Raised, 0, me.row);
    case Abort => MovingForms(s, p, me, Raised, 0, me.row);
  }

  lemma EndsOver(s: State, p: Pid, a: Action)
    requires Enabled(s, p, a) && (s.processes[p].stage.Unchanged? || a.Commit?)
    ensures |Perform(s, p, a).processes| == |s.processes| && Over(Perform(s, p, a).processes[p].stage)
  {}

  /** A transaction that is over stays over, and one with nothing to do ends without doing more. */
  lemma {:induction false} StaysOver(states: seq<State>, moves: seq<Move>, i: nat, j: nat, p: Pid)
    requires Run(states, moves) && i <= j < |states| && p < |states[i].processes|
    ensures |states[j].processes| == |states[i].processes|
    ensures Over(states[i].processes[p].stage) ==> Over(states[j].processes[p].stage)
    ensures states[i].processes[p].stage.Unchanged? ==>
              states[j].processes[p].stage.Unchanged? || Over(states[j].processes[p].stage)
    decreases j
  {
    if i < j {
      StaysOver(states, moves, i, j - 1, p);
      var m := moves[j - 1];
      assert StepAt(states[j - 1], m, states[j]);
      StepOf(states[j - 1], m.p, m.action);
      if m.p == p && states[j - 1].processes[p].stage.Unchanged? { EndsOver(states[j - 1], p, m.action); }
    }
  }

  /** In whatever run, a call that finds its relation in agreement changes no table by any of its
      steps, before or after: not a node, not a row, not a version, not an event. */
  lemma RelinkChangesNothing(states: seq<State>, moves: seq<Move>, r: nat, p: Pid, k: nat)
    requires Run(states, moves) && Initial(states[0]) && r < |moves| && k < |moves|
    requires moves[r] == Move(p, ReadRow) && p < |states[r].processes| && Agrees(states[r], states[r].processes[p])
    requires moves[k].p == p
    ensures SameTables(states[k], states[k + 1])
  {
    assert StepAt(states[k], moves[k], states[k + 1]) && StepAt(states[r], moves[r], states[r + 1]);
    if moves[k].action.Commit? {
      RunKeeps(states, moves, k);
      EndsOver(states[k], p, Commit);
      StepOf(states[r], p, ReadRow);
      if k < r { StaysOver(states, moves, k + 1, r, p); }
      RunKeeps(states, moves, r);
      RelinkDecidesNothing(states[r], p);
      assert k != r;
      StaysOver(states, moves, r + 1, k, p);
      UnchangedCommit(states[k], p);
    } else {
      OnlyCommitWrites(states[k], p, moves[k].action);
    }
  }

  /** So a call on its own ends with the tables it began with. */
  lemma {:induction false} RelinkAlone(states: seq<State>, moves: seq<Move>, r: nat, p: Pid, n: nat)
    requires Run(states, moves) && Initial(states[0]) && r < |moves| && n < |states|
    requires moves[r] == Move(p, ReadRow) && p < |states[r].processes| && Agrees(states[r], states[r].processes[p])
    requires forall k :: 0 <= k < |moves| ==> moves[k].p == p
    ensures SameTables(states[0], states[n])
    decreases n
  {
    if n > 0 {
      RelinkAlone(states, moves, r, p, n - 1);
      RelinkChangesNothing(states, moves, r, p, n - 1);
    }
  }

  // ------------------------------------------------------------ what the lock freezes

  /** While one transaction holds the lock of an environment nobody else's step changes the
      dependencies there. */
  lemma LockFreezesDependencies(s: State, p: Pid, q: Pid, a: Action)
    requires Inv(s) && p < |s.processes| && HoldsDepLock(s.processes[p]) && q != p && Enabled(s, q, a)
    ensures Dependencies(Perform(s, q, a), s.processes[p].request.env) == Dependencies(s, s.processes[p].request.env)
  {
    var env := s.processes[p].request.env;
    if !a.Commit? {
      OnlyCommitWrites(s, q, a);
      SameDependencies(s, Perform(s, q, a), env);
    } else if s.processes[q].stage.Pending? {
      assert OkAt(s, p) && OkAt(s, q);
      NewDependencies(s, q, env);
      assert Dependencies(s, env) + {} == Dependencies(s, env);
    } else {
      UnchangedCommit(s, q);
      SameDependencies(s, Perform(s, q, a), env);
    }
  }

  lemma FrozenStep(s: State, m: Move, t: State, p: Pid)
    requires Inv(s) && StepAt(s, m, t) && m.p != p && p < |s.processes| && HoldsDepLock(s.processes[p])
    ensures p < |t.processes| && t.processes[p] == s.processes[p]
    ensures Dependencies(t, s.processes[p].request.env) == Dependencies(s, s.processes[p].request.env)
  {
    StepOf(s, m.p, m.action);
    LockFreezesDependencies(s, p, m.p, m.action);
  }

  lemma FrozenAt(states: seq<State>, moves: seq<Move>, k: nat, p: Pid)
    requires Run(states, moves) && Initial(states[0]) && k < |moves| && moves[k].p != p
    requires p < |states[k].processes| && HoldsDepLock(states[k].processes[p])
    ensures p < |states[k + 1].processes| && states[k + 1].processes[p] == states[k].processes[p]
    ensures Dependencies(states[k + 1], states[k].processes[p].request.env) ==
            Dependencies(states[k], states[k].processes[p].request.env)
  {
    RunKeeps(states, moves, k);
    assert StepAt(states[k], moves[k], states[k + 1]);
    FrozenStep(states[k], moves[k], states[k + 1], p);
  }

  /** The process holds the lock from state `i` to state `j` while others move. */
  ghost predicate Searching(states: seq<State>, moves: seq<Move>, i: nat, j: nat, p: Pid) {
    && i <= j < |states| && p < |states[i].processes| && HoldsDepLock(states[i].processes[p])
    && forall k :: i <= k < j && k < |moves| ==> moves[k].p != p
  }

  /** So a search that reads the edges one query at a time, with any steps of others between its
      queries, reads one and the same graph: it may be taken as one step. */
  lemma {:induction false} SearchReadsOneGraph(states: seq<State>, moves: seq<Move>, i: nat, j: nat, p: Pid)
    requires Run(states, moves) && Initial(states[0]) && Searching(states, moves, i, j, p)
    ensures p < |states[j].processes| && states[j].processes[p] == states[i].processes[p]
    ensures Dependencies(states[j], states[i].processes[p].request.env) ==
            Dependencies(states[i], states[i].processes[p].request.env)
    decreases j
  {
    if i < j {
      SearchReadsOneGraph(states, moves, i, j - 1, p);
      FrozenAt(states, moves, j - 1, p);
    }
  }

  /** The search refuses exactly the edges that would close a cycle. */
  lemma RefusesExactlyCycles(s: State, p: Pid, cycle: bool)
    requires Inv(s) && Enabled(s, p, CheckCycle(cycle)) && Sound(s, p, CheckCycle(cycle))
    ensures var r := s.processes[p].request;
            cycle <==> !Acyclic(Dependencies(s, r.env) + {(r.src.id, r.dst.id)})
  {
    var r := s.processes[p].request;
    assert AcyclicIn(s, r.env);
    if cycle { RefusedEdgeClosesCycle(Dependencies(s, r.env), r.src.id, r.dst.id); }
    else { CheckedEdgeKeepsAcyclic(Dependencies(s, r.env), r.src.id, r.dst.id); }
  }

  /** The dependencies of all environments together. */
  ghost function AllDependencies(s: State): Edges {
    set k | k in s.relations && Counts(s, s.relations[k].env, k) :: (s.nodes[k.src].id, s.nodes[k.dst].id)
  }

  lemma EdgeStaysHome(s: State, e: (Id, Id)) returns (env: nat)
    requires TablesOk(s) && e in AllDependencies(s)
    ensures e in Dependencies(s, env)
    ensures Record(TaskRecord, e.0) in s.homes && s.homes[Record(TaskRecord, e.0)] == env
    ensures Record(TaskRecord, e.1) in s.homes && s.homes[Record(TaskRecord, e.1)] == env
  {
    var k :| k in s.relations && Counts(s, s.relations[k].env, k) && e == (s.nodes[k.src].id, s.nodes[k.dst].id);
    env := s.relations[k].env;
    assert RelationOk(s, k);
    assert s.nodes[k.src] == Record(TaskRecord, e.0) && s.nodes[k.dst] == Record(TaskRecord, e.1);
  }

  /** A path never leaves the environment it starts in. */
  lemma {:induction false} PathStaysHome(s: State, p: seq<Id>, env: nat)
    requires TablesOk(s) && Path(AllDependencies(s), p)
    requires Record(TaskRecord, p[0]) in s.homes && s.homes[Record(TaskRecord, p[0])] == env
    ensures Path(Dependencies(s, env), p)
    decreases |p|
  {
    if |p| > 1 {
      PathTail(AllDependencies(s), p);
      var home := EdgeStaysHome(s, (p[0], p[1]));
      PathStaysHome(s, p[1..], env);
      forall i | 0 <= i < |p| - 1 ensures (p[i], p[i + 1]) in Dependencies(s, env) {
        if i > 0 { assert (p[1..][i - 1], p[1..][i]) in Dependencies(s, env); }
      }
    }
  }

  lemma AcyclicEverywhere(s: State)
    requires TablesOk(s)
    ensures Acyclic(AllDependencies(s))
  {
    forall p | Path(AllDependencies(s), p) && |p| > 1 ensures p[0] != p[|p| - 1] {
      PathTail(AllDependencies(s), p);
      var env := EdgeStaysHome(s, (p[0], p[1]));
      PathStaysHome(s, p, env);
      assert AcyclicIn(s, env);
    }
  }

  /** Whatever the interleaving: dependencies between tasks stay acyclic, no record has two graph
      nodes, and a relation's events are its versions, the last one with its properties. */
  lemma LinksStaySound(states: seq<State>, moves: seq<Move>, i: nat)
    requires Run(states, moves) && Initial(states[0]) && i < |states|
    ensures Acyclic(AllDependencies(states[i])) && NodesUnique(states[i])
    ensures forall k :: k in states[i].relations ==> EventsOk(states[i], k)
    ensures forall e :: e in states[i].outbox ==> EventOk(states[i], e)
  {
    RunKeeps(states, moves, i);
    AcyclicEverywhere(states[i]);
  }
}
