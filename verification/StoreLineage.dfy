/** The lineage graph has no cycle in any reachable state. Creation order is not a rank for
    it once lineage has been copied, so the proof carries a rank of its own. */
module LineageAcyclic {
  import opened Wrappers
  import opened Sorting
  import opened StoreModel
  import opened StoreInvariants

  /** Every lineage row goes up in rank, and every rank is below `top`. */
  ghost predicate Ranked(rank: map<Id, int>, top: int, db: Db) {
    && db.memories.Keys <= rank.Keys
    && (forall id :: id in rank ==> rank[id] < top)
    && (forall e :: e in db.lineage ==> e.parent in rank && e.child in rank && rank[e.parent] < rank[e.child])
  }

  ghost predicate Linked(lineage: set<Edge>, parent: Id, child: Id) {
    exists e :: e in lineage && e.parent == parent && e.child == child
  }

  /** A walk along lineage rows, parent to child. */
  ghost predicate IsWalk(lineage: set<Edge>, p: seq<Id>) {
    forall i :: 0 <= i < |p| - 1 ==> Linked(lineage, p[i], p[i + 1])
  }

  ghost predicate Acyclic(lineage: set<Edge>) {
    forall p :: IsWalk(lineage, p) && |p| >= 2 ==> p[0] != p[|p| - 1]
  }

  lemma {:induction false} WalkRises(rank: map<Id, int>, top: int, db: Db, p: seq<Id>)
    requires Ranked(rank, top, db) && IsWalk(db.lineage, p) && |p| >= 2
    ensures p[0] in rank && p[|p| - 1] in rank && rank[p[0]] < rank[p[|p| - 1]]
  {
    assert Linked(db.lineage, p[0], p[1]);
    if |p| > 2 {
      var q := p[1..];
      forall i | 0 <= i < |q| - 1 ensures Linked(db.lineage, q[i], q[i + 1]) {
        assert Linked(db.lineage, p[i + 1], p[i + 2]);
      }
      WalkRises(rank, top, db, q);
    }
  }

  /** A fresh memory whose lineage rows all come from existing parents goes on top. */
  lemma NewChild(rank: map<Id, int>, top: int, db: Db, id: Id, row: Row, edges: set<Edge>)
    requires Ranked(rank, top, db) && References(db) && id !in db.memories
    requires forall e :: e in edges ==> e.child == id && e.parent in db.memories
    ensures var d := Inserted(db, id, row);
            Ranked(rank[id := top], top + 1, d.(lineage := d.lineage + edges))
  {
    var d := Inserted(db, id, row);
    forall e | e in d.lineage + edges
      ensures e.parent in rank[id := top] && e.child in rank[id := top]
              && rank[id := top][e.parent] < rank[id := top][e.child] {}
  }

  /** The rank after copying `src`: everything above it moves up one, and the copy takes the gap. */
  function MadeRoom(rank: map<Id, int>, src: Id, dst: Id): map<Id, int>
    requires src in rank
  {
    (map id | id in rank :: if rank[id] > rank[src] then rank[id] + 1 else rank[id])[dst := rank[src] + 1]
  }

  /** Copying a node with all its lineage rows, and then linking source to copy, keeps a rank. */
  lemma CopyRanked(rank: map<Id, int>, top: int, db: Db, req: CopyRequest, newId: Id, now: int)
    requires Ranked(rank, top, db) && Inv(db) && ApplyCopy(db, req, newId, now).Ok?
    ensures Ranked(MadeRoom(rank, req.source, newId), top + 1, ApplyCopy(db, req, newId, now).value)
  {
    var d := ApplyCopy(db, req, newId, now).value;
    var room := MadeRoom(rank, req.source, newId);
    forall e | e in d.lineage
      ensures e.parent in room && e.child in room && room[e.parent] < room[e.child]
    {
      if e in db.lineage {
        assert e.parent in db.memories && e.child in db.memories;
      } else if e != Edge(req.source, newId, CopiedFrom) {
        var was :| was in db.lineage && (was.parent == req.source || was.child == req.source)
          && e == Renamed(was, req.source, newId);
        assert rank[was.parent] < rank[was.child];
        assert was.parent in db.memories && was.child in db.memories;
      }
    }
  }

  lemma {:induction false} ChildrenRanked(rank: map<Id, int>, top: int, db: Db, req: DecomposeRequest, env: Env,
                                          ids: seq<Id>, now: int, n: nat)
    returns (rank': map<Id, int>, top': int)
    requires Ranked(rank, top, db) && Inv(db) && n <= |ids| == |req.children| && req.source in db.memories
             && Distinct(ids)
    requires forall i :: 0 <= i < |ids| ==> ids[i] !in db.heads
    ensures Ranked(rank', top', WithChildren(db, req, env, ids, now, n))
  {
    rank', top' := rank, top;
    if n > 0 {
      rank', top' := ChildrenRanked(rank, top, db, req, env, ids, now, n - 1);
      ChildrenKeep(db, req, env, ids, now, n - 1);
      var d := WithChildren(db, req, env, ids, now, n - 1);
      NewChild(rank', top', d, ids[n - 1], ChildRow(env, req.children[n - 1], now, d.clock),
               {Edge(req.source, ids[n - 1], DecomposeRelation(req.mode))});
      rank', top' := rank'[ids[n - 1] := top'], top' + 1;
    }
  }

  lemma {:induction false} SupersededKeepLineage(db: Db, ids: seq<Id>, newId: Id, now: int, n: nat)
    requires n <= |ids| && forall i :: 0 <= i < |ids| ==> ids[i] in db.memories
    ensures WithSuperseded(db, ids, newId, now, n).lineage == db.lineage
    ensures WithSuperseded(db, ids, newId, now, n).operations == db.operations
  {
    if n > 0 { SupersededKeepLineage(db, ids, newId, now, n - 1); }
  }

  lemma {:induction false} CascadeRanked(rank: map<Id, int>, top: int, db: Db, plan: seq<Victim>)
    requires Ranked(rank, top, db) && ApplyCascade(db, plan).Ok?
    ensures Ranked(rank, top, ApplyCascade(db, plan).value)
    decreases |plan|
  {
    if plan != [] { CascadeRanked(rank, top, ApplyDelete(Buried(db, plan[0].id), plan[0].id).value, plan[1..]); }
  }

  lemma ComposeRanked(rank: map<Id, int>, top: int, db: Db, req: ComposeRequest, newId: Id, now: int)
    returns (rank': map<Id, int>, top': int)
    requires Ranked(rank, top, db) && Inv(db) && ApplyCompose(db, req, newId, now).Ok?
    ensures Ranked(rank', top', ApplyCompose(db, req, newId, now).value.0)
  {
    var locked := SortIds(req.sources);
    var env := db.memories[locked[0]].env;
    rank', top' := rank, top;
    if !(exists id :: IsComposed(db, env, req.key, id)) {
      var row := NewRow(env, req.target, req.salience, EffectiveTags(db, req), Some(req.key), now, db.clock);
      NewChild(rank, top, db, newId, row, ComposeEdges(IdSet(locked), newId, req.mode));
      rank', top' := rank[newId := top], top + 1;
      var d := Inserted(db, newId, row);
      SupersededKeepLineage(d.(lineage := d.lineage + ComposeEdges(IdSet(locked), newId, req.mode)), locked, newId, now,
                            |locked|);
    }
  }

  lemma DecomposeRanked(rank: map<Id, int>, top: int, db: Db, req: DecomposeRequest, opId: Id, ids: seq<Id>, now: int)
    returns (rank': map<Id, int>, top': int)
    requires Ranked(rank, top, db) && Inv(db) && ApplyDecompose(db, req, opId, ids, now).Ok?
    ensures Ranked(rank', top', ApplyDecompose(db, req, opId, ids, now).value.0)
  {
    rank', top' := rank, top;
    if OpKey(db.memories[req.source].env, req.key) !in db.operations {
      rank', top' := ChildrenRanked(rank, top, db, req, db.memories[req.source].env, ids, now, |ids|);
      ChildrenKeep(db, req, db.memories[req.source].env, ids, now, |ids|);
    }
  }

  lemma CommitRanked(rank: map<Id, int>, top: int, db: Db, tx: Tx) returns (rank': map<Id, int>, top': int)
    requires Ranked(rank, top, db) && Inv(db)
    ensures Ranked(rank', top', Commit(db, tx))
  {
    rank', top' := rank, top;
    if Apply(db, tx).Ok? {
      match tx {
        case TxWrite(req, id, now) =>
          NewChild(rank, top, db, id, NewRow(req.env, req.content, req.salience, req.tags, None, now, db.clock), {});
          rank', top' := rank[id := top], top + 1;
        case TxSupersede(oldId, req, newId, now) =>
          NewChild(rank, top, db, newId,
                   NewRow(db.memories[oldId].env, req.content, req.salience, req.tags, None, now, db.clock),
                   {Edge(oldId, newId, Supersedes)});
          rank', top' := rank[newId := top], top + 1;
        case TxCompose(req, newId, now) => rank', top' := ComposeRanked(rank, top, db, req, newId, now);
        case TxDecompose(req, opId, ids, now) =>
          rank', top' := DecomposeRanked(rank, top, db, req, opId, ids, now);
        case TxCopy(req, newId, now) =>
          CopyRanked(rank, top, db, req, newId, now);
          rank', top' := MadeRoom(rank, req.source, newId), top + 1;
        case TxMove(req, redirect, graphRef, newId, now) =>
          if redirect {
            CopyRanked(rank, top, db, req, newId, now);
            rank', top' := MadeRoom(rank, req.source, newId), top + 1;
          } else {
            MoveWithoutRedirectNeverCommits(db, req, graphRef, newId, now);
          }
        case TxCascade(plan) => CascadeRanked(rank, top, db, plan);
        case _ =>
      }
    }
  }

  lemma {:induction false} RunRanked(txs: seq<Tx>) returns (rank: map<Id, int>, top: int)
    ensures Ranked(rank, top, Run(txs))
  {
    rank, top := map[], 0;
    if txs != [] {
      var before := txs[..|txs| - 1];
      rank, top := RunRanked(before);
      RunKeeps(before);
      rank, top := CommitRanked(rank, top, Run(before), txs[|txs| - 1]);
    }
  }

  /** No run of writes, updates, supersedes, composes, decomposes, copies, moves and deletes
      closes a lineage cycle. */
  lemma LineageStaysAcyclic(db: Db)
    requires Reachable(db)
    ensures Acyclic(db.lineage)
  {
    var txs :| db == Run(txs);
    var rank, top := RunRanked(txs);
    forall p | IsWalk(db.lineage, p) && |p| >= 2 ensures p[0] != p[|p| - 1] {
      WalkRises(rank, top, db, p);
    }
  }

  /** Creation order is not a rank: copying with its lineage a memory that already has a
      child makes the later copy a parent of the earlier child. */
  lemma CopyBreaksCreationOrder(db: Db, req: CopyRequest, newId: Id, now: int, e: Edge)
    requires Reachable(db) && ApplyCopy(db, req, newId, now).Ok?
    requires req.copyLineage && e in db.lineage && e.parent == req.source
    ensures var d := ApplyCopy(db, req, newId, now).value;
            && Edge(newId, e.child, e.relation) in d.lineage
            && newId in d.memories && e.child in d.memories && d.memories[newId].serial > d.memories[e.child].serial
  {
    ReachableInv(db);
    assert LiveRow(db, e.child);
    assert Edge(newId, e.child, e.relation) == Renamed(e, req.source, newId);
  }
}

/** Repeating a compose answers what the first one answered. */
module ComposeReplay {
  import opened Wrappers
  import opened Sorting
  import opened StoreModel
  import opened StoreInvariants
  import opened LineageAcyclic

  /** Nothing a replay looks at has changed: no memory is gone, moved to another environment
      or given another dedupe key, and no older memory has gained or lost a lineage parent. */
  ghost predicate Extends(db: Db, d: Db) {
    && (forall id :: id in db.memories ==>
          id in d.memories && d.memories[id].env == db.memories[id].env
            && d.memories[id].composeKey == db.memories[id].composeKey)
    && db.lineage <= d.lineage
    && (forall e :: e in d.lineage && e.child in db.memories ==> e in db.lineage)
  }

  /** Every transaction but a delete, and a copy or move that takes lineage along. */
  predicate Replayable(tx: Tx) {
    match tx
    case TxCopy(req, _, _) => !req.copyLineage
    case TxMove(req, redirect, _, _, _) => !req.copyLineage
    case TxHardDelete(_, _, _) => false
    case TxCascade(_) => false
    case _ => true
  }

  lemma {:induction false} SupersededExtends(db: Db, ids: seq<Id>, newId: Id, now: int, n: nat)
    requires n <= |ids| && forall i :: 0 <= i < |ids| ==> ids[i] in db.memories
    ensures Extends(db, WithSuperseded(db, ids, newId, now, n))
  {
    if n > 0 { SupersededExtends(db, ids, newId, now, n - 1); }
  }

  lemma {:induction false} ChildrenExtend(db: Db, req: DecomposeRequest, env: Env, ids: seq<Id>, now: int, n: nat)
    requires Inv(db) && n <= |ids| == |req.children| && req.source in db.memories && Distinct(ids)
    requires forall i :: 0 <= i < |ids| ==> ids[i] !in db.heads
    ensures Extends(db, WithChildren(db, req, env, ids, now, n))
  {
    ChildrenKeep(db, req, env, ids, now, n);
    if n > 0 {
      ChildrenExtend(db, req, env, ids, now, n - 1);
      assert ids[n - 1] !in db.memories;
    }
  }

  lemma ComposeExtends(db: Db, req: ComposeRequest, newId: Id, now: int)
    requires Inv(db) && ApplyCompose(db, req, newId, now).Ok?
    ensures Extends(db, ApplyCompose(db, req, newId, now).value.0)
  {
    var locked := SortIds(req.sources);
    var env := db.memories[locked[0]].env;
    if !(exists id :: IsComposed(db, env, req.key, id)) {
      var row := NewRow(env, req.target, req.salience, EffectiveTags(db, req), Some(req.key), now, db.clock);
      var d := Inserted(db, newId, row);
      var d' := d.(lineage := d.lineage + ComposeEdges(IdSet(locked), newId, req.mode));
      assert newId !in db.memories;
      assert Extends(db, d');
      if req.mode.Merge? {
        SupersededExtends(d', locked, newId, now, |locked|);
        SupersededKeepLineage(d', locked, newId, now, |locked|);
      }
    }
  }

  lemma CopyExtends(db: Db, req: CopyRequest, newId: Id, now: int)
    requires Inv(db) && ApplyCopy(db, req, newId, now).Ok? && !req.copyLineage
    ensures Extends(db, ApplyCopy(db, req, newId, now).value)
  {
    assert newId !in db.memories;
  }

  lemma SupersedeExtends(db: Db, oldId: Id, req: SupersedeRequest, newId: Id, now: int)
    requires Inv(db) && ApplySupersede(db, oldId, req, newId, now).Ok?
    ensures Extends(db, ApplySupersede(db, oldId, req, newId, now).value)
  {
    assert newId !in db.memories;
  }

  lemma DecomposeExtends(db: Db, req: DecomposeRequest, opId: Id, ids: seq<Id>, now: int)
    requires Inv(db) && ApplyDecompose(db, req, opId, ids, now).Ok?
    ensures Extends(db, ApplyDecompose(db, req, opId, ids, now).value.0)
  {
    if OpKey(db.memories[req.source].env, req.key) !in db.operations {
      ChildrenExtend(db, req, db.memories[req.source].env, ids, now, |ids|);
      ChildrenKeep(db, req, db.memories[req.source].env, ids, now, |ids|);
    }
  }

  lemma CommitExtends(db: Db, tx: Tx)
    requires Inv(db) && Replayable(tx)
    ensures Extends(db, Commit(db, tx))
  {
    if Apply(db, tx).Ok? {
      match tx {
        case TxSupersede(oldId, req, newId, now) => SupersedeExtends(db, oldId, req, newId, now);
        case TxCompose(req, newId, now) => ComposeExtends(db, req, newId, now);
        case TxDecompose(req, opId, ids, now) => DecomposeExtends(db, req, opId, ids, now);
        case TxCopy(req, newId, now) => CopyExtends(db, req, newId, now);
        case TxMove(req, redirect, graphRef, newId, now) =>
          if redirect { CopyExtends(db, req, newId, now); }
          else { MoveWithoutRedirectNeverCommits(db, req, graphRef, newId, now); }
        case _ =>
      }
    }
  }

  /** The tables after the transactions `txs`, starting from `db`. */
  ghost function RunFrom(db: Db, txs: seq<Tx>): Db {
    if txs == [] then db else Commit(RunFrom(db, txs[..|txs| - 1]), txs[|txs| - 1])
  }

  lemma {:induction false} RunExtends(db: Db, txs: seq<Tx>)
    requires Inv(db) && forall i :: 0 <= i < |txs| ==> Replayable(txs[i])
    ensures Inv(RunFrom(db, txs)) && Extends(db, RunFrom(db, txs))
  {
    if txs != [] {
      var before := txs[..|txs| - 1];
      RunExtends(db, before);
      CommitKeeps(RunFrom(db, before), txs[|txs| - 1]);
      CommitExtends(RunFrom(db, before), txs[|txs| - 1]);
    }
  }

  /** What a first compose leaves in the tables is all its replay needs. */
  lemma FirstCompose(db: Db, req: ComposeRequest, newId: Id, now: int)
    requires Inv(db) && ApplyCompose(db, req, newId, now).Ok?
    requires newId !in db.heads && ApplyCompose(db, req, newId, now).value.1.id == newId
    ensures var d := ApplyCompose(db, req, newId, now).value.0; var locked := SortIds(req.sources);
            && Inv(d)
            && (forall i :: 0 <= i < |locked| ==>
                locked[i] in d.memories && locked[i] in db.memories
                  && d.memories[locked[i]].env == db.memories[locked[i]].env)
            && |locked| >= 2 && IsComposed(d, db.memories[locked[0]].env, req.key, newId)
            && (forall e :: e in d.lineage && e.child == newId <==> e in ComposeEdges(IdSet(locked), newId, req.mode))
            && ApplyCompose(db, req, newId, now).value.1 == FirstResponse(req, locked, newId)
  {
    var locked := SortIds(req.sources);
    var env := db.memories[locked[0]].env;
    ComposeKeeps(db, req, newId, now);
    ComposeExtends(db, req, newId, now);
    assert !(exists id :: IsComposed(db, env, req.key, id));
    var row := NewRow(env, req.target, req.salience, EffectiveTags(db, req), Some(req.key), now, db.clock);
    var d := Inserted(db, newId, row);
    var d' := d.(lineage := d.lineage + ComposeEdges(IdSet(locked), newId, req.mode));
    if req.mode.Merge? {
      SupersededKeepLineage(d', locked, newId, now, |locked|);
      SupersededExtends(d', locked, newId, now, |locked|);
    }
  }

  /** After any run without deletes and lineage copies, the same request gets the same
      answer again and changes nothing, even when the compose superseded its own sources. */
  lemma ReplayAnswersTheSame(db: Db, req: ComposeRequest, newId: Id, now: int, txs: seq<Tx>, otherId: Id, later: int)
    requires Reachable(db) && ApplyCompose(db, req, newId, now).Ok?
    requires newId !in db.heads && ApplyCompose(db, req, newId, now).value.1.id == newId
    requires forall i :: 0 <= i < |txs| ==> Replayable(txs[i])
    ensures var (d, response) := ApplyCompose(db, req, newId, now).value;
            ApplyCompose(RunFrom(d, txs), req, otherId, later) == Ok((RunFrom(d, txs), response))
  {
    ReachableInv(db);
    FirstCompose(db, req, newId, now);
    var (d, response) := ApplyCompose(db, req, newId, now).value;
    var locked := SortIds(req.sources);
    RunExtends(d, txs);
    var d2 := RunFrom(d, txs);
    var env := db.memories[locked[0]].env;
    assert IsComposed(d2, env, req.key, newId);
    forall id | IsComposed(d2, env, req.key, id) ensures id == newId {
      assert SameComposeKey(d2.memories[id], d2.memories[newId]);
    }
    LineageDecidesReplay(d2, req, locked, newId);
  }

  lemma LineageDecidesReplay(d: Db, req: ComposeRequest, locked: seq<Id>, newId: Id)
    requires |locked| >= 2
    requires forall e :: e in d.lineage && e.child == newId <==> e in ComposeEdges(IdSet(locked), newId, req.mode)
    ensures ReplayCompose(d, newId, req.mode) == Ok(FirstResponse(req, locked, newId))
  {
    var ids := IdSet(locked);
    assert locked[0] in ids;
    forall id | id in ids ensures Edge(id, newId, ComposeRelation(req.mode)) in d.lineage {
      assert Edge(id, newId, ComposeRelation(req.mode)) in ComposeEdges(ids, newId, req.mode);
    }
    assert ReplayParents(d, newId) == ids;
    if req.mode.Merge? {
      assert ReplayRetired(d, newId) == ids && ReplayPromoted(d, newId) == {};
    } else {
      assert ReplayPromoted(d, newId) == ids && ReplayRetired(d, newId) == {};
    }
  }

  /** A copy changes what the replay of an older compose answers exactly when it takes along
      the lineage of one of that compose's sources: the copy then counts as a further source. */
  lemma CopyChangesReplayExactly(db: Db, req: CopyRequest, newId: Id, now: int, merged: Id)
    requires Reachable(db) && merged in db.memories && ApplyCopy(db, req, newId, now).Ok?
    ensures var d := ApplyCopy(db, req, newId, now).value;
            ReplayParents(d, merged) == ReplayParents(db, merged)
            <==> !(req.copyLineage && req.source in ReplayParents(db, merged))
  {
    ReachableInv(db);
    var d := ApplyCopy(db, req, newId, now).value;
    assert newId !in db.memories;
    assert newId !in ReplayParents(db, merged);
    if req.copyLineage && req.source in ReplayParents(db, merged) {
      var e :| e in db.lineage && e.child == merged && e.parent == req.source;
      assert Renamed(e, req.source, newId) == Edge(newId, merged, e.relation);
      assert Edge(newId, merged, e.relation) in d.lineage;
      assert newId in ReplayParents(d, merged);
    } else {
      forall e | e in CopyEdges(db, req, newId) ensures e.child != merged {
        if e != Edge(req.source, newId, CopiedFrom) {
          var was :| was in db.lineage && (was.parent == req.source || was.child == req.source)
            && e == Renamed(was, req.source, newId);
          assert was.child == merged ==> was.parent in ReplayParents(db, merged);
        }
      }
    }
  }
}

/** Repeating a decompose answers what the first one answered, for as long as it can. */
module DecomposeReplay {
  import opened Wrappers
  import opened Sorting
  import opened StoreModel
  import opened StoreInvariants
  import opened LineageAcyclic
  import opened ComposeReplay

  ghost predicate SourceKept(db: Db, d: Db, source: Id) {
    source in db.memories && source in d.memories && d.memories[source].env == db.memories[source].env
  }

  /** No operation is lost or changed, and its source is still in its environment. */
  ghost predicate OperationsKept(db: Db, d: Db) {
    forall k {:trigger k in d.operations} :: k in db.operations ==>
      k in d.operations && d.operations[k] == db.operations[k] && SourceKept(db, d, db.operations[k].source)
  }

  lemma DeleteKeepsOperations(db: Db, id: Id)
    requires Inv(db) && id in db.memories && ApplyDelete(Buried(db, id), id).Ok?
    ensures OperationsKept(db, ApplyDelete(Buried(db, id), id).value)
  {
    var b := Buried(db, id);
    forall k | k in db.operations ensures db.operations[k].source != id { assert k in b.operations; }
  }

  lemma {:induction false} CascadeKeepsOperations(db: Db, plan: seq<Victim>)
    requires Inv(db) && ApplyCascade(db, plan).Ok?
    ensures OperationsKept(db, ApplyCascade(db, plan).value)
    decreases |plan|
  {
    if plan != [] {
      DeleteKeepsOperations(db, plan[0].id);
      BuriedAndDeletedKeeps(db, plan[0].id);
      CascadeKeepsOperations(ApplyDelete(Buried(db, plan[0].id), plan[0].id).value, plan[1..]);
    }
  }

  lemma ComposeTouchesNoOperation(db: Db, req: ComposeRequest, newId: Id, now: int)
    requires ApplyCompose(db, req, newId, now).Ok?
    ensures ApplyCompose(db, req, newId, now).value.0.operations == db.operations
  {
    var locked := SortIds(req.sources);
    var env := db.memories[locked[0]].env;
    if !(exists id :: IsComposed(db, env, req.key, id)) && req.mode.Merge? {
      var d := Inserted(db, newId,
                        NewRow(env, req.target, req.salience, EffectiveTags(db, req), Some(req.key), now, db.clock));
      SupersededKeepLineage(d.(lineage := d.lineage + ComposeEdges(IdSet(locked), newId, req.mode)), locked, newId, now,
                            |locked|);
    }
  }

  lemma ComposeKeepsOperations(db: Db, req: ComposeRequest, newId: Id, now: int)
    requires Inv(db) && ApplyCompose(db, req, newId, now).Ok?
    ensures OperationsKept(db, ApplyCompose(db, req, newId, now).value.0)
  {
    ComposeTouchesNoOperation(db, req, newId, now);
    ComposeExtends(db, req, newId, now);
  }

  lemma DecomposeKeepsOperations(db: Db, req: DecomposeRequest, opId: Id, ids: seq<Id>, now: int)
    requires Inv(db) && ApplyDecompose(db, req, opId, ids, now).Ok?
    ensures OperationsKept(db, ApplyDecompose(db, req, opId, ids, now).value.0)
  {
    DecomposeExtends(db, req, opId, ids, now);
    var env := db.memories[req.source].env;
    if OpKey(env, req.key) !in db.operations { ChildrenKeep(db, req, env, ids, now, |ids|); }
  }

  lemma CopyKeepsOperations(db: Db, req: CopyRequest, newId: Id, now: int)
    requires Inv(db) && ApplyCopy(db, req, newId, now).Ok?
    ensures OperationsKept(db, ApplyCopy(db, req, newId, now).value)
    ensures ApplyMove(db, req, true, false, newId, now).Ok? ==>
              OperationsKept(db, ApplyMove(db, req, true, false, newId, now).value)
  {
    assert newId !in db.memories;
  }

  lemma CommitKeepsOperations(db: Db, tx: Tx)
    requires Inv(db)
    ensures OperationsKept(db, Commit(db, tx))
  {
    if Apply(db, tx).Ok? {
      match tx {
        case TxSupersede(oldId, req, newId, now) => assert newId !in db.memories;
        case TxCompose(req, newId, now) => ComposeKeepsOperations(db, req, newId, now);
        case TxDecompose(req, opId, ids, now) => DecomposeKeepsOperations(db, req, opId, ids, now);
        case TxCopy(req, newId, now) => CopyKeepsOperations(db, req, newId, now);
        case TxMove(req, redirect, graphRef, newId, now) =>
          if redirect { CopyKeepsOperations(db, req, newId, now); }
          else { MoveWithoutRedirectNeverCommits(db, req, graphRef, newId, now); }
        case TxHardDelete(id, v, graphRef) => DeleteKeepsOperations(db, id);
        case TxCascade(plan) => CascadeKeepsOperations(db, plan);
        case _ =>
      }
    }
  }

  lemma KeptOn(a: Db, b: Db, c: Db)
    requires OperationsKept(a, b) && OperationsKept(b, c)
    ensures OperationsKept(a, c)
  {
    forall k | k in a.operations
      ensures k in c.operations && c.operations[k] == a.operations[k] && SourceKept(a, c, a.operations[k].source)
    {
      assert k in b.operations && SourceKept(a, b, a.operations[k].source);
      assert k in c.operations;
      assert SourceKept(b, c, b.operations[k].source);
    }
  }

  lemma {:induction false} RunKeepsOperations(db: Db, txs: seq<Tx>)
    requires Inv(db)
    ensures Inv(RunFrom(db, txs)) && OperationsKept(db, RunFrom(db, txs))
  {
    if txs == [] {
      assert OperationsKept(db, db);
    } else {
      var before, last := txs[..|txs| - 1], txs[|txs| - 1];
      RunKeepsOperations(db, before);
      CommitKeeps(RunFrom(db, before), last);
      CommitKeepsOperations(RunFrom(db, before), last);
      KeptOn(db, RunFrom(db, before), RunFrom(db, txs));
    }
  }

  ghost predicate AllThere(d: Db, ids: seq<Id>) {
    forall i :: 0 <= i < |ids| ==> ids[i] in d.memories
  }

  /** What a first decompose leaves for its replays. */
  lemma FirstDecompose(db: Db, req: DecomposeRequest, opId: Id, ids: seq<Id>, now: int)
    requires Inv(db) && ApplyDecompose(db, req, opId, ids, now).Ok?
    requires OpKey(db.memories[req.source].env, req.key) !in db.operations
    ensures var (d, response) := ApplyDecompose(db, req, opId, ids, now).value; var env := db.memories[req.source].env;
            && Inv(d) && req.source in d.memories && d.memories[req.source].env == env
            && OpKey(env, req.key) in d.operations
            && d.operations[OpKey(env, req.key)] == Operation(opId, req.source, req.mode, req.fingerprint, ids)
            && response == DecomposeResponse(opId, req.source, req.mode, ids)
  {
    DecomposeKeeps(db, req, opId, ids, now);
    ChildrenKeep(db, req, db.memories[req.source].env, ids, now, |ids|);
  }

  /** Whatever transactions come in between, deletes included, the same request is never carried
      out again: it gets the same answer, and changes nothing, exactly while all the children
      are there and the source has not been made a playbook. The source itself is never gone. */
  lemma ReplayAnswersTheSame(db: Db, req: DecomposeRequest, opId: Id, ids: seq<Id>, now: int,
                             txs: seq<Tx>, otherOp: Id, otherIds: seq<Id>, later: int)
    requires Reachable(db) && ApplyDecompose(db, req, opId, ids, now).Ok?
    requires OpKey(db.memories[req.source].env, req.key) !in db.operations
    ensures var (d, response) := ApplyDecompose(db, req, opId, ids, now).value;
            var d2 := RunFrom(d, txs);
            && req.source in d2.memories
            && ApplyDecompose(d2, req, otherOp, otherIds, later) ==
                 (if d2.memories[req.source].content.kind == "playbook" then Err(InvalidInput)
                  else if !AllThere(d2, ids) then Err(NotFound)
                  else Ok((d2, response)))
  {
    ReachableInv(db);
    FirstDecompose(db, req, opId, ids, now);
    var d := ApplyDecompose(db, req, opId, ids, now).value.0;
    RunKeepsOperations(d, txs);
    assert OpKey(db.memories[req.source].env, req.key) in RunFrom(d, txs).operations;
  }

  lemma {:induction false} ChildRowsNew(db: Db, req: DecomposeRequest, env: Env, ids: seq<Id>, now: int, n: nat)
    requires n <= |ids| == |req.children| && Distinct(ids)
    ensures var w := WithChildren(db, req, env, ids, now, n);
            && (forall i :: 0 <= i < n ==> ids[i] in w.memories && w.memories[ids[i]].version == 1)
            && (forall r :: r in w.memories ==>
                (r in db.memories && w.memories[r] == db.memories[r]) || w.memories[r].supersededBy.None?)
  {
    if n > 0 { ChildRowsNew(db, req, env, ids, now, n - 1); }
  }

  /** Nothing holds on to the memory: none names it as its successor, no operation as its source. */
  ghost predicate Unnamed(d: Db, id: Id) {
    && (forall r :: r in d.memories ==> d.memories[r].supersededBy != Some(id))
    && (forall k :: k in d.operations ==> d.operations[k].source != id)
  }

  lemma NewIdUnnamed(db: Db, id: Id)
    requires Inv(db) && id !in db.memories
    ensures Unnamed(db, id)
  {
    forall r | r in db.memories ensures db.memories[r].supersededBy != Some(id) { assert HasSuccessor(db, r); }
  }

  lemma NewChildUnnamed(db: Db, req: DecomposeRequest, env: Env, ids: seq<Id>, now: int, i: nat)
    requires Inv(db) && i < |ids| == |req.children| && req.source in db.memories && Distinct(ids)
    requires forall j :: 0 <= j < |ids| ==> ids[j] !in db.heads
    ensures var w := WithChildren(db, req, env, ids, now, |ids|);
            ids[i] in w.memories && w.memories[ids[i]].version == 1 && Unnamed(w, ids[i])
  {
    NewIdUnnamed(db, ids[i]);
    ChildrenKeep(db, req, env, ids, now, |ids|);
    ChildRowsNew(db, req, env, ids, now, |ids|);
  }

  lemma ChildUnreferenced(db: Db, req: DecomposeRequest, opId: Id, ids: seq<Id>, now: int, i: nat)
    requires Inv(db) && ApplyDecompose(db, req, opId, ids, now).Ok?
    requires OpKey(db.memories[req.source].env, req.key) !in db.operations && i < |ids|
    ensures var d := ApplyDecompose(db, req, opId, ids, now).value.0;
            ids[i] in d.memories && d.memories[ids[i]].version == 1 && Unnamed(d, ids[i])
  {
    var env := db.memories[req.source].env;
    assert ids[i] !in db.memories && LiveRow(db, req.source);
    NewChildUnnamed(db, req, env, ids, now, i);
  }

  /** So a cascade from any child can follow at once, and after it the replay is refused: the
      branch for missing children, taken to be unreachable, is reached. */
  lemma CascadedChildStopsReplay(db: Db, req: DecomposeRequest, opId: Id, ids: seq<Id>, now: int, i: nat,
                                 otherOp: Id, otherIds: seq<Id>, later: int)
    requires Reachable(db) && ApplyDecompose(db, req, opId, ids, now).Ok?
    requires OpKey(db.memories[req.source].env, req.key) !in db.operations && i < |ids|
    ensures var d := ApplyDecompose(db, req, opId, ids, now).value.0; var cascade := TxCascade([Victim(ids[i], 1)]);
            && Apply(d, cascade).Ok?
            && ApplyDecompose(RunFrom(d, [cascade]), req, otherOp, otherIds, later).Err?
  {
    ReachableInv(db);
    ChildUnreferenced(db, req, opId, ids, now, i);
    var d := ApplyDecompose(db, req, opId, ids, now).value.0;
    var cascade := TxCascade([Victim(ids[i], 1)]);
    OneVictim(d, ids[i]);
    assert [cascade][..0] == [] && RunFrom(d, []) == d;
    assert RunFrom(d, [cascade]) == Commit(d, cascade);
    ReplayAnswersTheSame(db, req, opId, ids, now, [cascade], otherOp, otherIds, later);
  }

  lemma OneVictim(d: Db, id: Id)
    requires id in d.memories && d.memories[id].version == 1 && Unnamed(d, id)
    ensures ApplyCascade(d, [Victim(id, 1)]).Ok? && ApplyCascade(d, [Victim(id, 1)]).value.memories == d.memories - {id}
  {
    var b := Buried(d, id);
    assert ApplyDelete(b, id).Ok?;
    assert [Victim(id, 1)][1..] == [];
    assert ApplyCascade(ApplyDelete(b, id).value, []).Ok?;
  }
}
