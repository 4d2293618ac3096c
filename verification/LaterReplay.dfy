/** What a repeated compose answers after any run of transactions whatever, deletes and
    copies with lineage included. */
module LaterReplay {
  import opened Wrappers
  import opened Sorting
  import opened StoreModel
  import opened StoreInvariants
  import opened Supersession
  import opened ComposeReplay
  import opened DecomposeReplay

  // ------------------------------------------------------------ what survives a run

  /** An id once used never names another memory, and a memory that is still there keeps its
      environment and dedupe key, and the superseded status once it has it. */
  ghost predicate Later(db: Db, d: Db) {
    && db.heads.Keys <= d.heads.Keys
    && (forall id {:trigger SameMemory(db, d, id)} :: id in d.memories && id in db.heads ==> SameMemory(db, d, id))
  }

  ghost predicate SameMemory(db: Db, d: Db, id: Id)
    requires id in d.memories
  {
    && id in db.memories
    && d.memories[id].env == db.memories[id].env && d.memories[id].composeKey == db.memories[id].composeKey
    && (db.memories[id].status.Superseded? ==> d.memories[id].status.Superseded?)
  }

  lemma LaterOn(a: Db, b: Db, c: Db)
    requires Later(a, b) && Later(b, c)
    ensures Later(a, c)
  {
    forall id | id in c.memories && id in a.heads ensures SameMemory(a, c, id) {
      assert SameMemory(b, c, id) && SameMemory(a, b, id);
    }
  }

  /** The part of `Later` that concerns the ids alone, and the columns no statement writes. */
  ghost predicate Identity(db: Db, d: Db) {
    && db.heads.Keys <= d.heads.Keys
    && (forall id :: id in d.memories && id in db.heads ==>
          && id in db.memories
          && d.memories[id].env == db.memories[id].env && d.memories[id].composeKey == db.memories[id].composeKey)
  }

  lemma IdentityOn(a: Db, b: Db, c: Db)
    requires Identity(a, b) && Identity(b, c)
    ensures Identity(a, c)
  {}

  lemma InsertedIdentity(db: Db, id: Id, row: Row)
    requires db.memories.Keys <= db.heads.Keys && id !in db.heads
    ensures Identity(db, Inserted(db, id, row))
  {}

  lemma EditedIdentity(db: Db, id: Id, row: Row)
    requires db.memories.Keys <= db.heads.Keys && id in db.memories
    requires row.env == db.memories[id].env && row.composeKey == db.memories[id].composeKey
    ensures Identity(db, Edited(db, id, row)) && Edited(db, id, row).memories.Keys == db.memories.Keys
  {}

  lemma {:induction false} SupersededIdentity(db: Db, ids: seq<Id>, newId: Id, now: int, n: nat)
    requires db.memories.Keys <= db.heads.Keys && n <= |ids| && forall i :: 0 <= i < |ids| ==> ids[i] in db.memories
    ensures Identity(db, WithSuperseded(db, ids, newId, now, n))
  {
    if n > 0 {
      SupersededIdentity(db, ids, newId, now, n - 1);
      var d := WithSuperseded(db, ids, newId, now, n - 1);
      var row := SupersededRow(d.memories[ids[n - 1]], newId, now);
      EditedIdentity(d, ids[n - 1], row);
      IdentityOn(db, d, Edited(d, ids[n - 1], row));
    }
  }

  lemma {:induction false} ChildrenIdentity(db: Db, req: DecomposeRequest, env: Env, ids: seq<Id>, now: int, n: nat)
    requires n <= |ids| == |req.children| && forall i :: 0 <= i < |ids| ==> ids[i] !in db.heads
    requires db.memories.Keys <= db.heads.Keys
    ensures Identity(db, WithChildren(db, req, env, ids, now, n))
  {
    if n > 0 { ChildrenIdentity(db, req, env, ids, now, n - 1); }
  }

  lemma {:induction false} CascadeIdentity(db: Db, plan: seq<Victim>)
    requires db.memories.Keys <= db.heads.Keys && ApplyCascade(db, plan).Ok?
    ensures Identity(db, ApplyCascade(db, plan).value)
    decreases |plan|
  {
    if plan != [] { CascadeIdentity(ApplyDelete(Buried(db, plan[0].id), plan[0].id).value, plan[1..]); }
  }

  lemma ComposedIdentity(db: Db, req: ComposeRequest, locked: seq<Id>, newId: Id, now: int)
    requires db.memories.Keys <= db.heads.Keys && newId !in db.heads
    requires |locked| > 0 && forall i :: 0 <= i < |locked| ==> locked[i] in db.memories
    ensures Identity(db, Composed(db, req, locked, newId, now))
  {
    var env := db.memories[locked[0]].env;
    var row := NewRow(env, req.target, req.salience, EffectiveTags(db, req), Some(req.key), now, db.clock);
    var d := Inserted(db, newId, row);
    InsertedIdentity(db, newId, row);
    var d' := d.(lineage := d.lineage + ComposeEdges(IdSet(locked), newId, req.mode));
    assert Identity(db, d');
    if req.mode.Merge? {
      SupersededIdentity(d', locked, newId, now, |locked|);
      IdentityOn(db, d', Composed(db, req, locked, newId, now));
    }
  }

  lemma ComposeIdentity(db: Db, req: ComposeRequest, newId: Id, now: int)
    requires db.memories.Keys <= db.heads.Keys && ApplyCompose(db, req, newId, now).Ok?
    ensures Identity(db, ApplyCompose(db, req, newId, now).value.0)
  {
    var locked := SortIds(req.sources);
    if !(exists id :: IsComposed(db, db.memories[locked[0]].env, req.key, id)) {
      ComposedIdentity(db, req, locked, newId, now);
    }
  }

  lemma DecomposeIdentity(db: Db, req: DecomposeRequest, opId: Id, ids: seq<Id>, now: int)
    requires Inv(db) && ApplyDecompose(db, req, opId, ids, now).Ok?
    ensures Identity(db, ApplyDecompose(db, req, opId, ids, now).value.0)
  {
    var env := db.memories[req.source].env;
    if OpKey(env, req.key) !in db.operations {
      ChildrenIdentity(db, req, env, ids, now, |ids|);
      ChildrenKeep(db, req, env, ids, now, |ids|);
    }
  }

  lemma CopyIdentity(db: Db, req: CopyRequest, newId: Id, now: int)
    requires Inv(db) && ApplyCopy(db, req, newId, now).Ok?
    ensures Identity(db, ApplyCopy(db, req, newId, now).value)
    ensures ApplyMove(db, req, true, false, newId, now).Ok? ==>
              Identity(db, ApplyMove(db, req, true, false, newId, now).value)
  {}

  lemma SupersedeIdentity(db: Db, oldId: Id, req: SupersedeRequest, newId: Id, now: int)
    requires Inv(db) && ApplySupersede(db, oldId, req, newId, now).Ok?
    ensures Identity(db, ApplySupersede(db, oldId, req, newId, now).value)
  {}

  lemma CommitIdentity(db: Db, tx: Tx)
    requires Inv(db)
    ensures Identity(db, Commit(db, tx))
  {
    if Apply(db, tx).Ok? {
      match tx {
        case TxSupersede(oldId, req, newId, now) => SupersedeIdentity(db, oldId, req, newId, now);
        case TxCompose(req, newId, now) => ComposeIdentity(db, req, newId, now);
        case TxDecompose(req, opId, ids, now) => DecomposeIdentity(db, req, opId, ids, now);
        case TxCopy(req, newId, now) => CopyIdentity(db, req, newId, now);
        case TxMove(req, redirect, graphRef, newId, now) =>
          if redirect { CopyIdentity(db, req, newId, now); }
          else { MoveWithoutRedirectNeverCommits(db, req, graphRef, newId, now); }
        case TxCascade(plan) => CascadeIdentity(db, plan);
        case _ =>
      }
    }
  }

  lemma CommitIsLater(db: Db, tx: Tx)
    requires Inv(db)
    ensures Later(db, Commit(db, tx))
  {
    CommitIdentity(db, tx);
    var d := Commit(db, tx);
    forall id | id in d.memories && id in db.heads ensures SameMemory(db, d, id) {
      if db.memories[id].status.Superseded? { SupersededIsFinal(db, tx, id); }
    }
  }

  lemma {:induction false} RunIsLater(db: Db, txs: seq<Tx>)
    requires Inv(db)
    ensures Inv(RunFrom(db, txs)) && Later(db, RunFrom(db, txs))
  {
    if txs == [] {
      forall id | id in db.memories && id in db.heads ensures SameMemory(db, db, id) {}
    } else {
      var before, last := txs[..|txs| - 1], txs[|txs| - 1];
      RunIsLater(db, before);
      CommitKeeps(RunFrom(db, before), last);
      CommitIsLater(RunFrom(db, before), last);
      LaterOn(db, RunFrom(db, before), RunFrom(db, txs));
    }
  }

  // ------------------------------------------------------------ the lineage parents of a memory

  /** The copy that a transaction makes, with its lineage, of a parent of the memory. */
  ghost function TakenAlong(db: Db, tx: Tx, id: Id): set<Id> {
    if (tx.TxCopy? || tx.TxMove?) && Apply(db, tx).Ok? && tx.copy.copyLineage
      && tx.copy.source in ReplayParents(db, id) then {tx.newId}
    else {}
  }

  lemma CopyParents(db: Db, req: CopyRequest, newId: Id, now: int, id: Id)
    requires Inv(db) && id in db.memories && ApplyCopy(db, req, newId, now).Ok?
    ensures ReplayParents(ApplyCopy(db, req, newId, now).value, id) ==
            ReplayParents(db, id) + if req.copyLineage && req.source in ReplayParents(db, id) then {newId} else {}
  {
    var d := ApplyCopy(db, req, newId, now).value;
    var parents := ReplayParents(d, id);
    if req.copyLineage && req.source in ReplayParents(db, id) {
      var e :| e in db.lineage && e.child == id && e.parent == req.source;
      assert Renamed(e, req.source, newId) == Edge(newId, id, e.relation);
      assert Edge(newId, id, e.relation) in d.lineage;
      assert newId in parents;
    }
    forall p | p in parents
      ensures p in ReplayParents(db, id) || (p == newId && req.copyLineage && req.source in ReplayParents(db, id))
    {
      var e :| e in d.lineage && e.child == id && e.parent == p;
      if e !in db.lineage { CopiedEdgeAbove(db, req, newId, id, e); }
    }
    forall p | p in ReplayParents(db, id) ensures p in parents {
      var e :| e in db.lineage && e.child == id && e.parent == p;
      assert e in d.lineage;
    }
  }

  /** An edge a copy adds above another memory leads from the copy, as one led from its source. */
  lemma CopiedEdgeAbove(db: Db, req: CopyRequest, newId: Id, id: Id, e: Edge)
    requires References(db) && newId !in db.memories && id != newId
    requires e in CopyEdges(db, req, newId) && e !in db.lineage && e.child == id
    ensures e.parent == newId && req.copyLineage && Edge(req.source, id, e.relation) in db.lineage
  {
    var was :| was in db.lineage && (was.parent == req.source || was.child == req.source)
      && e == Renamed(was, req.source, newId);
    assert was.child == id;
    assert was == Edge(req.source, id, e.relation);
  }

  ghost predicate Alive(d: Db, ids: set<Id>, p: Id) {
    p in ids && p in d.memories
  }

  /** Deleting rows takes the lineage rows of the deleted memories along, and no other. */
  ghost predicate Pruned(db: Db, d: Db) {
    && d.memories.Keys <= db.memories.Keys
    && forall e :: e in d.lineage <==> e in db.lineage && e.parent in d.memories && e.child in d.memories
  }

  lemma DeletePrunes(db: Db, id: Id)
    requires References(db) && id in db.memories && ApplyDelete(Buried(db, id), id).Ok?
    ensures Pruned(db, ApplyDelete(Buried(db, id), id).value)
  {}

  lemma {:induction false} CascadePrunes(db: Db, plan: seq<Victim>)
    requires Inv(db) && ApplyCascade(db, plan).Ok?
    ensures Pruned(db, ApplyCascade(db, plan).value)
    decreases |plan|
  {
    if plan != [] {
      DeletePrunes(db, plan[0].id);
      BuriedAndDeletedKeeps(db, plan[0].id);
      CascadePrunes(ApplyDelete(Buried(db, plan[0].id), plan[0].id).value, plan[1..]);
    }
  }

  /** The parents after a transaction: those before it and the copy it makes of one of them,
      as far as they are still there. */
  ghost predicate ParentsFollow(db: Db, d: Db, added: set<Id>, id: Id) {
    forall p :: p in ReplayParents(d, id) <==> Alive(d, ReplayParents(db, id) + added, p)
  }

  lemma PrunedParents(db: Db, d: Db, id: Id)
    requires Pruned(db, d) && id in d.memories
    ensures ParentsFollow(db, d, {}, id)
  {
    forall p ensures p in ReplayParents(d, id) <==> Alive(d, ReplayParents(db, id) + {}, p) {
      if p in ReplayParents(d, id) {
        var e :| e in d.lineage && e.child == id && e.parent == p;
        assert e in db.lineage;
      }
      if Alive(d, ReplayParents(db, id) + {}, p) {
        var e :| e in db.lineage && e.child == id && e.parent == p;
        assert e in d.lineage;
      }
    }
  }

  lemma ExtendedParents(db: Db, d: Db, id: Id)
    requires Extends(db, d) && References(db) && id in db.memories
    ensures ParentsFollow(db, d, {}, id)
  {
    forall p ensures p in ReplayParents(d, id) <==> p in ReplayParents(db, id) {
      if p in ReplayParents(d, id) {
        var e :| e in d.lineage && e.child == id && e.parent == p;
        assert e in db.lineage;
      }
    }
  }

  lemma CopiedParents(db: Db, req: CopyRequest, newId: Id, now: int, id: Id, d: Db)
    requires Inv(db) && id in db.memories && ApplyCopy(db, req, newId, now).Ok?
    requires d.lineage == ApplyCopy(db, req, newId, now).value.lineage && d.memories.Keys == db.memories.Keys + {newId}
    ensures ParentsFollow(db, d, if req.copyLineage && req.source in ReplayParents(db, id) then {newId} else {}, id)
  {
    CopyParents(db, req, newId, now, id);
    assert ReplayParents(d, id) == ReplayParents(ApplyCopy(db, req, newId, now).value, id);
  }

  lemma CommittedCopyParents(db: Db, tx: Tx, id: Id)
    requires Inv(db) && id in db.memories && (tx.TxCopy? || tx.TxMove?) && Apply(db, tx).Ok?
    ensures ParentsFollow(db, Commit(db, tx), TakenAlong(db, tx, id), id)
  {
    if tx.TxMove? && !tx.redirect { MoveWithoutRedirectNeverCommits(db, tx.copy, tx.graphRef, tx.newId, tx.now); }
    CopiedParents(db, tx.copy, tx.newId, tx.now, id, Commit(db, tx));
  }

  lemma CommitParents(db: Db, tx: Tx, id: Id)
    requires Inv(db) && id in db.memories && id in Commit(db, tx).memories
    ensures ParentsFollow(db, Commit(db, tx), TakenAlong(db, tx, id), id)
  {
    var d := Commit(db, tx);
    if Apply(db, tx).Err? {
      ExtendedParents(db, db, id);
    } else if tx.TxCopy? || tx.TxMove? {
      CommittedCopyParents(db, tx, id);
    } else if tx.TxHardDelete? {
      DeletePrunes(db, tx.id);
      PrunedParents(db, d, id);
    } else if tx.TxCascade? {
      CascadePrunes(db, tx.plan);
      PrunedParents(db, d, id);
    } else {
      CommitExtends(db, tx);
      ExtendedParents(db, d, id);
    }
  }

  /** At some point of the run, `p` was made as a copy, with its lineage, of a parent of `id`. */
  ghost predicate CopiedAt(db: Db, txs: seq<Tx>, i: int, id: Id, p: Id)
    requires 0 <= i < |txs|
  {
    p in TakenAlong(RunFrom(db, txs[..i]), txs[i], id)
  }

  ghost predicate Copied(db: Db, txs: seq<Tx>, id: Id, p: Id) {
    exists i :: 0 <= i < |txs| && CopiedAt(db, txs, i, id, p)
  }

  lemma CopiedOneMore(db: Db, txs: seq<Tx>, id: Id, p: Id)
    requires txs != []
    ensures var n := |txs| - 1;
            Copied(db, txs, id, p) <==>
                Copied(db, txs[..n], id, p) || p in TakenAlong(RunFrom(db, txs[..n]), txs[n], id)
  {
    var n := |txs| - 1;
    var before := txs[..n];
    forall i | 0 <= i < n ensures CopiedAt(db, before, i, id, p) == CopiedAt(db, txs, i, id, p) {
      assert before[..i] == txs[..i];
    }
    if Copied(db, before, id, p) {
      var i :| 0 <= i < |before| && CopiedAt(db, before, i, id, p);
      assert CopiedAt(db, txs, i, id, p);
    }
    assert CopiedAt(db, txs, n, id, p) <==> p in TakenAlong(RunFrom(db, before), txs[n], id);
  }

  lemma TakenUsed(db: Db, tx: Tx, id: Id, p: Id)
    requires p in TakenAlong(db, tx, id)
    ensures p in Commit(db, tx).heads
  {}

  /** A copy has used its id. */
  lemma {:induction false} CopiedUsed(db: Db, txs: seq<Tx>, id: Id, p: Id)
    requires Inv(db) && Copied(db, txs, id, p)
    ensures p in RunFrom(db, txs).heads
  {
    var n := |txs| - 1;
    var before, last := txs[..n], txs[n];
    var b := RunFrom(db, before);
    CopiedOneMore(db, txs, id, p);
    if Copied(db, before, id, p) {
      CopiedUsed(db, before, id, p);
      RunIsLater(db, before);
      CommitIsLater(b, last);
    } else {
      TakenUsed(b, last, id, p);
    }
  }

  /** After any run, the lineage parents of a memory that was there before it and still is are
      those it had and the copies made of its parents with their lineage, less what is deleted. */
  lemma {:induction false} ParentsAfterRun(db: Db, txs: seq<Tx>, id: Id)
    requires Inv(db) && id in db.memories && id in RunFrom(db, txs).memories
    ensures var d := RunFrom(db, txs);
            forall p :: p in ReplayParents(d, id) <==>
                p in d.memories && (p in ReplayParents(db, id) || Copied(db, txs, id, p))
  {
    var d := RunFrom(db, txs);
    if txs == [] {
      forall p | p in ReplayParents(db, id) ensures p in db.memories {}
    } else {
      var before, last := txs[..|txs| - 1], txs[|txs| - 1];
      var b := RunFrom(db, before);
      RunIsLater(db, before);
      CommitIsLater(b, last);
      assert SameMemory(b, d, id);
      ParentsAfterRun(db, before, id);
      CommitParents(b, last, id);
      forall p
        ensures p in ReplayParents(d, id) <==> p in d.memories && (p in ReplayParents(db, id) || Copied(db, txs, id, p))
      {
        assert p in ReplayParents(d, id) <==> Alive(d, ReplayParents(b, id) + TakenAlong(b, last, id), p);
        CopiedOneMore(db, txs, id, p);
        if Copied(db, before, id, p) { CopiedUsed(db, before, id, p); }
        assert p in ReplayParents(db, id) ==> p in db.heads && p in b.heads;
        assert p in b.heads && p in d.memories ==> SameMemory(b, d, p);
      }
    }
  }

  lemma TakenNew(db: Db, tx: Tx, id: Id, p: Id)
    requires p in TakenAlong(db, tx, id)
    ensures p !in db.heads
  {}

  /** A copy took an id that nothing had used before the run. */
  lemma CopiedNew(db: Db, txs: seq<Tx>, id: Id, p: Id)
    requires Inv(db) && Copied(db, txs, id, p)
    ensures p !in db.heads
  {
    var i :| 0 <= i < |txs| && CopiedAt(db, txs, i, id, p);
    TakenNew(RunFrom(db, txs[..i]), txs[i], id, p);
    RunIsLater(db, txs[..i]);
  }

  /** All lineage rows that lead to the memory carry the relation. */
  ghost predicate OneRelation(db: Db, id: Id, r: Relation) {
    forall e :: e in db.lineage && e.child == id ==> e.relation == r
  }

  lemma CopyKeepsRelation(db: Db, req: CopyRequest, newId: Id, now: int, id: Id, r: Relation)
    requires Inv(db) && id in db.memories && ApplyCopy(db, req, newId, now).Ok? && OneRelation(db, id, r)
    ensures OneRelation(ApplyCopy(db, req, newId, now).value, id, r)
  {
    forall e | e in ApplyCopy(db, req, newId, now).value.lineage && e.child == id ensures e.relation == r {
      if e !in db.lineage { CopiedEdgeAbove(db, req, newId, id, e); }
    }
  }

  lemma CommitKeepsRelation(db: Db, tx: Tx, id: Id, r: Relation)
    requires Inv(db) && id in db.memories && OneRelation(db, id, r)
    ensures OneRelation(Commit(db, tx), id, r)
  {
    if Apply(db, tx).Ok? {
      if tx.TxCopy? || tx.TxMove? {
        if tx.TxMove? && !tx.redirect { MoveWithoutRedirectNeverCommits(db, tx.copy, tx.graphRef, tx.newId, tx.now); }
        CopyKeepsRelation(db, tx.copy, tx.newId, tx.now, id, r);
      } else if tx.TxHardDelete? {
        DeletePrunes(db, tx.id);
      } else if tx.TxCascade? {
        CascadePrunes(db, tx.plan);
      } else {
        CommitExtends(db, tx);
      }
    }
  }

  lemma {:induction false} RunKeepsRelation(db: Db, txs: seq<Tx>, id: Id, r: Relation)
    requires Inv(db) && id in db.memories && id in RunFrom(db, txs).memories && OneRelation(db, id, r)
    ensures OneRelation(RunFrom(db, txs), id, r)
  {
    if txs != [] {
      var before, last := txs[..|txs| - 1], txs[|txs| - 1];
      RunIsLater(db, before);
      CommitIsLater(RunFrom(db, before), last);
      assert SameMemory(RunFrom(db, before), RunFrom(db, txs), id);
      RunKeepsRelation(db, before, id, r);
      CommitKeepsRelation(RunFrom(db, before), last, id, r);
    }
  }

  // ------------------------------------------------------------ the repeated compose

  lemma {:induction false} AllSuperseded(db: Db, ids: seq<Id>, newId: Id, now: int, n: nat)
    requires n <= |ids| && forall i :: 0 <= i < |ids| ==> ids[i] in db.memories
    ensures forall i :: 0 <= i < n ==> WithSuperseded(db, ids, newId, now, n).memories[ids[i]].status.Superseded?
  {
    if n > 0 { AllSuperseded(db, ids, newId, now, n - 1); }
  }

  /** A first merge leaves its sources superseded. */
  lemma MergeSupersedes(db: Db, req: ComposeRequest, newId: Id, now: int)
    requires Inv(db) && ApplyCompose(db, req, newId, now).Ok? && req.mode.Merge?
    requires newId !in db.heads && ApplyCompose(db, req, newId, now).value.1.id == newId
    ensures var d := ApplyCompose(db, req, newId, now).value.0; var locked := SortIds(req.sources);
            forall i :: 0 <= i < |locked| ==> locked[i] in d.memories && d.memories[locked[i]].status.Superseded?
  {
    var locked := SortIds(req.sources);
    var env := db.memories[locked[0]].env;
    assert !(exists id :: IsComposed(db, env, req.key, id));
    var row := NewRow(env, req.target, req.salience, EffectiveTags(db, req), Some(req.key), now, db.clock);
    var d := Inserted(db, newId, row);
    AllSuperseded(d.(lineage := d.lineage + ComposeEdges(IdSet(locked), newId, req.mode)), locked, newId, now,
                  |locked|);
  }

  /** The request passed every check on its sources' environment. */
  lemma FirstEnvironment(db: Db, req: ComposeRequest, newId: Id, now: int)
    requires ApplyCompose(db, req, newId, now).Ok?
    requires newId !in db.heads && db.memories.Keys <= db.heads.Keys
             && ApplyCompose(db, req, newId, now).value.1.id == newId
    ensures var locked := SortIds(req.sources);
            && |locked| >= 2 && Distinct(req.sources)
            && forall i :: 0 <= i < |locked| ==>
              locked[i] in db.memories && db.memories[locked[i]].env == db.memories[locked[0]].env
    ensures req.env.Some? ==> req.env.value == db.memories[SortIds(req.sources)[0]].env
  {
    var locked := SortIds(req.sources);
    assert !(exists id :: IsComposed(db, db.memories[locked[0]].env, req.key, id));
    assert SourceError(db, req, locked).None?;
  }

  ghost predicate KeyFree(d: Db, env: Env, key: string) {
    forall id :: !IsComposed(d, env, key, id)
  }

  /** The response to a dedupe hit on a memory with these lineage parents. */
  function HitResponse(id: Id, mode: ComposeMode, parents: set<Id>): ComposeResponse {
    ComposeResponse(id, mode, parents, if mode.Merge? then parents else {}, ComposeEdges(parents, id, mode))
  }

  lemma HitAnswers(d: Db, id: Id, mode: ComposeMode, p: Id)
    requires OneRelation(d, id, ComposeRelation(mode)) && p in ReplayParents(d, id)
    ensures ReplayCompose(d, id, mode) == Ok(HitResponse(id, mode, ReplayParents(d, id)))
  {
    var e :| e in d.lineage && e.child == id && e.parent == p;
    assert e.relation == ComposeRelation(mode);
    if mode.Merge? {
      assert ReplayRetired(d, id) == ReplayParents(d, id) && ReplayPromoted(d, id) == {};
    } else {
      assert ReplayPromoted(d, id) == ReplayParents(d, id) && ReplayRetired(d, id) == {};
    }
  }

  /** What the first compose established, as far as it still holds after the run. */
  ghost predicate AfterRun(db: Db, d: Db, d2: Db, req: ComposeRequest, newId: Id, locked: seq<Id>) {
    && Inv(d2) && locked == SortIds(req.sources) && |locked| >= 2 && Distinct(req.sources)
    && (forall i :: 0 <= i < |locked| ==> locked[i] in d.memories && locked[i] in db.memories)
    && newId in d.memories && newId in d2.heads
    && (req.env.Some? ==> req.env.value == db.memories[locked[0]].env)
    && (forall i :: 0 <= i < |locked| && locked[i] in d2.memories ==>
          && d2.memories[locked[i]].env == db.memories[locked[0]].env
          && (req.mode.Merge? ==> d2.memories[locked[i]].status.Superseded?))
    && (newId in d2.memories ==>
        IsComposed(d2, db.memories[locked[0]].env, req.key, newId) && OneRelation(d2, newId, ComposeRelation(req.mode)))
  }

  lemma RunReachesAfter(db: Db, req: ComposeRequest, newId: Id, now: int, txs: seq<Tx>)
    requires Inv(db) && ApplyCompose(db, req, newId, now).Ok?
    requires newId !in db.heads && ApplyCompose(db, req, newId, now).value.1.id == newId
    ensures var d := ApplyCompose(db, req, newId, now).value.0;
            AfterRun(db, d, RunFrom(d, txs), req, newId, SortIds(req.sources))
  {
    var locked := SortIds(req.sources);
    var d := ApplyCompose(db, req, newId, now).value.0;
    var d2 := RunFrom(d, txs);
    FirstCompose(db, req, newId, now);
    FirstEnvironment(db, req, newId, now);
    if req.mode.Merge? { MergeSupersedes(db, req, newId, now); }
    RunIsLater(d, txs);
    forall i | 0 <= i < |locked| && locked[i] in d2.memories
      ensures d2.memories[locked[i]].env == db.memories[locked[0]].env
      ensures req.mode.Merge? ==> d2.memories[locked[i]].status.Superseded?
    {
      assert SameMemory(d, d2, locked[i]);
    }
    assert newId in d.memories && newId in d.heads;
    if newId in d2.memories {
      assert SameMemory(d, d2, newId);
      FirstRelation(d, locked, newId, req.mode);
      RunKeepsRelation(d, txs, newId, ComposeRelation(req.mode));
    }
  }

  lemma FirstRelation(d: Db, locked: seq<Id>, newId: Id, mode: ComposeMode)
    requires forall e :: e in d.lineage && e.child == newId <==> e in ComposeEdges(IdSet(locked), newId, mode)
    ensures OneRelation(d, newId, ComposeRelation(mode)) && ReplayParents(d, newId) == IdSet(locked)
  {
    forall id | id in IdSet(locked) ensures id in ReplayParents(d, newId) {
      assert Edge(id, newId, ComposeRelation(mode)) in ComposeEdges(IdSet(locked), newId, mode);
    }
  }

  /** What the repeated request finds, by what is left of its sources and its result. */
  lemma AnswerAfter(db: Db, d: Db, d2: Db, req: ComposeRequest, newId: Id, locked: seq<Id>, otherId: Id, later: int)
    requires AfterRun(db, d, d2, req, newId, locked)
    requires newId in d2.memories && AllThere(d2, locked) ==> locked[0] in ReplayParents(d2, newId)
    ensures var answer := ApplyCompose(d2, req, otherId, later);
            && (!AllThere(d2, locked) ==> answer == Err(NotFound))
            && (AllThere(d2, locked) && newId in d2.memories ==>
                answer == Ok((d2, HitResponse(newId, req.mode, ReplayParents(d2, newId)))))
            && (AllThere(d2, locked) && newId !in d2.memories ==> answer.Ok? ==> answer.value.1.id != newId)
            && (AllThere(d2, locked) && newId !in d2.memories && req.mode.Merge?
                && KeyFree(d2, db.memories[locked[0]].env, req.key) ==>
                  answer == Err(InvalidTransition))
  {
    if AllThere(d2, locked) {
      var env := db.memories[locked[0]].env;
      assert d2.memories[locked[0]].env == env;
      if newId in d2.memories {
        forall id | IsComposed(d2, env, req.key, id) ensures id == newId {
          assert SameComposeKey(d2.memories[id], d2.memories[newId]);
        }
        HitAnswers(d2, newId, req.mode, locked[0]);
      }
    }
  }

  lemma SourcesStayParents(db: Db, req: ComposeRequest, newId: Id, now: int, txs: seq<Tx>)
    requires Inv(db) && ApplyCompose(db, req, newId, now).Ok?
    requires newId !in db.heads && ApplyCompose(db, req, newId, now).value.1.id == newId
    requires newId in RunFrom(ApplyCompose(db, req, newId, now).value.0, txs).memories
    ensures var d := ApplyCompose(db, req, newId, now).value.0; var d2 := RunFrom(d, txs);
            forall p :: p in ReplayParents(d2, newId) <==>
                p in d2.memories && (p in SortIds(req.sources) || Copied(d, txs, newId, p))
  {
    FirstCompose(db, req, newId, now);
    var d := ApplyCompose(db, req, newId, now).value.0;
    FirstRelation(d, SortIds(req.sources), newId, req.mode);
    ParentsAfterRun(d, txs, newId);
  }

  /** Whatever transactions come in between, a repeated compose is refused when one of its
      sources is gone; it finds the composed memory when that and the sources are there, and
      then reports as sources all that are its lineage parents now: the sources and the copies
      made of them, or of such copies, with their lineage. When the memory a merge made is
      gone and its dedupe key is not in use again, the sources are still superseded and the
      merge is refused. */
  lemma ReplayAfterAnyRun(db: Db, req: ComposeRequest, newId: Id, now: int, txs: seq<Tx>, otherId: Id, later: int)
    requires Reachable(db) && ApplyCompose(db, req, newId, now).Ok?
    requires newId !in db.heads && ApplyCompose(db, req, newId, now).value.1.id == newId
    ensures var d := ApplyCompose(db, req, newId, now).value.0; var d2 := RunFrom(d, txs);
            var locked := SortIds(req.sources);
            var answer := ApplyCompose(d2, req, otherId, later);
            && (forall i :: 0 <= i < |locked| ==> locked[i] in db.memories) && |locked| >= 2
            && (!AllThere(d2, locked) ==> answer == Err(NotFound))
            && (AllThere(d2, locked) && newId in d2.memories ==>
                  answer == Ok((d2, HitResponse(newId, req.mode, ReplayParents(d2, newId)))))
            && (newId in d2.memories ==> forall p :: p in ReplayParents(d2, newId) <==>
                  p in d2.memories && (p in locked || Copied(d, txs, newId, p)))
            && (AllThere(d2, locked) && newId !in d2.memories && req.mode.Merge?
                && KeyFree(d2, db.memories[locked[0]].env, req.key) ==>
                  answer == Err(InvalidTransition))
  {
    ReachableInv(db);
    var d := ApplyCompose(db, req, newId, now).value.0;
    RunReachesAfter(db, req, newId, now, txs);
    if newId in RunFrom(d, txs).memories { SourcesStayParents(db, req, newId, now, txs); }
    AnswerAfter(db, d, RunFrom(d, txs), req, newId, SortIds(req.sources), otherId, later);
  }

  lemma SameParents(db: Db, d: Db, d2: Db, txs: seq<Tx>, locked: seq<Id>, newId: Id)
    requires Inv(d) && AllThere(d2, locked) && forall i :: 0 <= i < |locked| ==> locked[i] in d.memories
    requires forall p :: p in ReplayParents(d2, newId) <==>
               p in d2.memories && (p in locked || Copied(d, txs, newId, p))
    ensures ReplayParents(d2, newId) == IdSet(locked) <==> forall p :: Copied(d, txs, newId, p) ==> p !in d2.memories
  {
    forall p | Copied(d, txs, newId, p) ensures p !in locked { CopiedNew(d, txs, newId, p); }
    assert forall p :: Copied(d, txs, newId, p) && p in d2.memories ==>
        p in ReplayParents(d2, newId) && p !in IdSet(locked);
  }

  /** The repeated compose gets the first answer, and changes nothing, exactly when the sources
      and the composed memory are all there and no copy taken along with its lineage is. */
  lemma SameAnswerExactly(db: Db, req: ComposeRequest, newId: Id, now: int, txs: seq<Tx>, otherId: Id, later: int)
    requires Reachable(db) && ApplyCompose(db, req, newId, now).Ok?
    requires newId !in db.heads && ApplyCompose(db, req, newId, now).value.1.id == newId
    ensures var (d, response) := ApplyCompose(db, req, newId, now).value; var d2 := RunFrom(d, txs);
            ApplyCompose(d2, req, otherId, later) == Ok((d2, response)) <==>
            && newId in d2.memories && AllThere(d2, SortIds(req.sources))
            && forall p :: Copied(d, txs, newId, p) ==> p !in d2.memories
  {
    ReachableInv(db);
    var (d, response) := ApplyCompose(db, req, newId, now).value;
    var d2, locked := RunFrom(d, txs), SortIds(req.sources);
    RunReachesAfter(db, req, newId, now, txs);
    FirstCompose(db, req, newId, now);
    if newId in d2.memories { SourcesStayParents(db, req, newId, now, txs); }
    AnswerAfter(db, d, d2, req, newId, locked, otherId, later);
    assert response == HitResponse(newId, req.mode, IdSet(locked));
    if newId in d2.memories && AllThere(d2, locked) { SameParents(db, d, d2, txs, locked, newId); }
  }
}
